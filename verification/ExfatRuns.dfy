/** Runs of the exFAT allocator: any number of files, created with their extent, resized and removed
    by the driver's own methods (src/exfat/create.rs, src/exfat/cluster_map.rs, src/exfat/bitmap.rs),
    refusals included. Each call opens the file from its entry, as src/exfat/open.rs does. */
module ExfatRuns {
  import opened Basics
  import opened FatTables
  import opened ClusterMaps
  import opened ExfatHeaps
  import opened ExfatMaps
  import opened ExfatExtents

  /** What an entry says of its stream. */
  datatype Extent = Extent(first: nat, length: nat, noFatChain: bool)

  const EMPTY := Extent(0, 0, false)

  /** A call; `i` names one of the files there are. */
  datatype Call = Create(length: nat) | Resize(i: nat, length: nat) | Remove(i: nat)

  /** How a call ends. A leak is a refusal that leaves clusters marked that no file has. */
  datatype Outcome = Done | Refused | Leaked

  // ---------------------------------------------------------------- live files

  /** The clusters of a file are the list `s`: all marked, in one run or on one chain. */
  ghost predicate Sound(t: Table, used: set<nat>, count: nat, cs: nat, f: Extent, s: seq<nat>) {
    && LawfulMap(MapState(s, f.length), cs) && AllUsed(s, used, count)
    && f.first == FirstField(s) && (s == [] <==> f.length == 0)
    && if f.noFatChain then Contiguous(s) && |s| == DivCeil(f.length, cs) else s != [] ==> IsChain(t, s)
  }

  ghost predicate Disjoint(s: seq<nat>, r: seq<nat>) { forall c :: c in s ==> c !in r }

  ghost predicate LiveOn(t: Table, used: set<nat>, count: nat, cs: nat, files: seq<Extent>, lists: seq<seq<nat>>) {
    && |files| == |lists|
    && (forall i :: 0 <= i < |lists| ==> Sound(t, used, count, cs, files[i], lists[i]))
    && forall i, j :: 0 <= i < |lists| && 0 <= j < |lists| && i != j ==> Disjoint(lists[i], lists[j])
  }

  ghost predicate Live(vol: ExfatHeap, cs: nat, files: seq<Extent>, lists: seq<seq<nat>>)
    reads vol
  {
    cs > 0 && vol.Valid() && LiveOn(vol.Cells(), vol.Used(), vol.count, cs, files, lists)
  }

  ghost predicate Listed(c: nat, lists: seq<seq<nat>>) { exists i :: 0 <= i < |lists| && c in lists[i] }

  /** The clusters marked although no file has them. */
  ghost function Stray(used: set<nat>, lists: seq<seq<nat>>): set<nat> { set c | c in used && !Listed(c, lists) }

  // ---------------------------------------------------------------- what calls do to lengths

  function Lengths(files: seq<Extent>): (r: seq<nat>)
    ensures |r| == |files|
  {
    seq(|files|, i requires 0 <= i < |files| => files[i].length)
  }

  /** The files there are after a call that was not refused. */
  function After(lengths: seq<nat>, call: Call): seq<nat> {
    match call
    case Create(n) => lengths + [n]
    case Resize(i, n) => if i < |lengths| then lengths[i := n] else lengths
    case Remove(i) => if i < |lengths| then lengths[..i] + lengths[i + 1..] else lengths
  }

  /** The files there are after a run of calls that ended so. */
  function AfterAll(lengths: seq<nat>, calls: seq<Call>, ends: seq<Outcome>): seq<nat>
    requires |ends| == |calls|
  {
    if calls == [] then lengths
    else
      var n := |calls| - 1;
      var before := AfterAll(lengths, calls[..n], ends[..n]);
      if ends[n].Done? then After(before, calls[n]) else before
  }

  /** The call names a file there is, or asks for no more clusters than 32 bits count. */
  predicate Possible(cs: nat, files: seq<Extent>, call: Call)
    requires cs > 0
  {
    match call
    case Create(n) => DivCeil(n, cs) <= U32_MAX
    case Resize(i, _) => i < |files|
    case Remove(i) => i < |files|
  }

  /** A refusal of this call leaks: the new file is never entered, or the entry of the file says
      nothing about what was appended. */
  predicate Leaky(files: seq<Extent>, call: Call) {
    match call
    case Create(_) => true
    case Resize(i, _) => i < |files| && (files[i].length == 0 || files[i].noFatChain)
    case Remove(_) => false
  }

  // ---------------------------------------------------------------- runs

  /** All files with the clusters each holds, and how many clusters are clear. */
  datatype Plan = Plan(files: seq<Extent>, held: seq<nat>, clear: nat)

  function Sizes(lists: seq<seq<nat>>): (r: seq<nat>)
    ensures |r| == |lists|
  {
    seq(|lists|, i requires 0 <= i < |lists| => |lists[i]|)
  }

  ghost function PlanOf(vol: ExfatHeap, files: seq<Extent>, lists: seq<seq<nat>>): Plan
    reads vol
  {
    Plan(files, Sizes(lists), |ClearIn(vol.Used(), vol.count)|)
  }

  function Total(held: seq<nat>): nat { if held == [] then 0 else Total(held[..|held| - 1]) + held[|held| - 1] }

  /** The clusters a call takes: those its length needs beyond what the old length needed. */
  function Wants(cs: nat, files: seq<Extent>, call: Call): nat
    requires cs > 0
  {
    match call
    case Create(n) => DivCeil(n, cs)
    case Resize(i, n) =>
      if i < |files| && n > files[i].length then SatSub(DivCeil(n, cs), DivCeil(files[i].length, cs)) else 0
    case Remove(_) => 0
  }

  /** The clusters the files hold after a call that was done: a cut keeps what its length needs, and
      clusters beyond the old length when it needs as many. */
  function HeldAfter(cs: nat, p: Plan, call: Call): seq<nat>
    requires cs > 0 && |p.held| == |p.files|
  {
    match call
    case Create(n) => p.held + [DivCeil(n, cs)]
    case Resize(i, n) =>
      if i >= |p.files| then p.held
      else if n >= p.files[i].length then p.held[i := p.held[i] + Wants(cs, p.files, call)]
      else if DivCeil(n, cs) < DivCeil(p.files[i].length, cs) then p.held[i := DivCeil(n, cs)]
      else p.held
    case Remove(i) => if i < |p.files| then p.held[..i] + p.held[i + 1..] else p.held
  }

  /** Every other file's entry is as it was. */
  ghost predicate OthersKept(files: seq<Extent>, call: Call, now: seq<Extent>) {
    match call
    case Create(_) => files <= now
    case Resize(i, _) => forall j :: 0 <= j < |files| && j < |now| && j != i ==> now[j] == files[j]
    case Remove(i) => i < |files| ==> now == files[..i] + files[i + 1..]
  }

  /** What a call comes to. It is done exactly when it is possible and enough clusters are clear; a
      refusal for want of clusters leaves none clear: a chained file keeps what it got so far, anything
      else leaks. Clusters held and clear add up to what they did, but for a leak. */
  ghost predicate Explains(cs: nat, a: Plan, call: Call, end: Outcome, b: Plan)
    requires cs > 0
  {
    && |a.held| == |a.files| && |b.held| == |b.files|
    && (end.Done? <==> Possible(cs, a.files, call) && Wants(cs, a.files, call) <= a.clear)
    && b.clear + Total(b.held) + (if end.Leaked? then a.clear else 0) == a.clear + Total(a.held)
    && Lengths(b.files) == (if end.Done? then After(Lengths(a.files), call) else Lengths(a.files))
    && (match end
        case Done => b.held == HeldAfter(cs, a, call) && OthersKept(a.files, call, b.files)
        case Leaked => Possible(cs, a.files, call) && Leaky(a.files, call) && b == a.(clear := 0)
        case Refused => b.files == a.files && if Possible(cs, a.files, call) then !Leaky(a.files, call) && b.clear == 0
                        else b == a)
  }

  /** A run: every call comes to what the plans say, step after step. */
  ghost predicate Explained(cs: nat, plans: seq<Plan>, calls: seq<Call>, ends: seq<Outcome>) {
    && cs > 0 && |ends| == |calls| && |plans| == |calls| + 1
    && forall k :: 0 <= k < |calls| ==> Explains(cs, plans[k], calls[k], ends[k], plans[k + 1])
  }

  lemma ExplainedThen(cs: nat, plans: seq<Plan>, calls: seq<Call>, k: nat, ends: seq<Outcome>, end: Outcome, p: Plan)
    requires k < |calls| && Explained(cs, plans, calls[..k], ends) && Explains(cs, plans[k], calls[k], end, p)
    ensures Explained(cs, plans + [p], calls[..k + 1], ends + [end])
  {
    var now, upTo, all := plans + [p], calls[..k + 1], ends + [end];
    forall i | 0 <= i < |upTo|
      ensures Explains(cs, now[i], upTo[i], all[i], now[i + 1])
    {
      if i < k {
        assert Explains(cs, plans[i], calls[..k][i], ends[i], plans[i + 1]);
      }
    }
  }

  /** After a run the files are as long as the calls that were done made them. */
  lemma {:induction false} LengthsAfter(cs: nat, plans: seq<Plan>, calls: seq<Call>, ends: seq<Outcome>)
    requires Explained(cs, plans, calls, ends)
    ensures Lengths(plans[|calls|].files) == AfterAll(Lengths(plans[0].files), calls, ends)
  {
    if calls == [] {
    } else {
      var n := |calls| - 1;
      forall k | 0 <= k < n
        ensures Explains(cs, plans[..n + 1][k], calls[..n][k], ends[..n][k], plans[..n + 1][k + 1])
      {
        assert Explains(cs, plans[k], calls[k], ends[k], plans[k + 1]);
      }
      LengthsAfter(cs, plans[..n + 1], calls[..n], ends[..n]);
      assert Explains(cs, plans[n], calls[n], ends[n], plans[n + 1]);
    }
  }

  /** Any calls in any order: each comes to what the plans say, the lists of the files stay in use,
      acyclic and disjoint, contiguous exactly where the entries say so, and unless a refusal leaked,
      the clusters marked are those of the files and those that were stray from the start. */
  method Perform(vol: ExfatHeap, cs: nat, files: seq<Extent>, calls: seq<Call>, ghost lists: seq<seq<nat>>)
      returns (now: seq<Extent>, ends: seq<Outcome>, ghost lists': seq<seq<nat>>, ghost plans: seq<Plan>)
    requires Live(vol, cs, files, lists)
    modifies vol
    ensures Live(vol, cs, now, lists') && Explained(cs, plans, calls, ends)
    ensures plans[0] == old(PlanOf(vol, files, lists)) && plans[|calls|] == PlanOf(vol, now, lists')
    ensures Lengths(now) == AfterAll(Lengths(files), calls, ends)
    ensures old(Stray(vol.Used(), lists)) <= Stray(vol.Used(), lists')
    ensures Leaked !in ends ==> Stray(vol.Used(), lists') == old(Stray(vol.Used(), lists))
  {
    now, ends, lists', plans := files, [], lists, [PlanOf(vol, files, lists)];
    for k := 0 to |calls|
      invariant Live(vol, cs, now, lists') && Explained(cs, plans, calls[..k], ends)
      invariant plans[0] == old(PlanOf(vol, files, lists)) && plans[k] == PlanOf(vol, now, lists')
      invariant old(Stray(vol.Used(), lists)) <= Stray(vol.Used(), lists')
      invariant Leaked !in ends ==> Stray(vol.Used(), lists') == old(Stray(vol.Used(), lists))
    {
      var end: Outcome;
      now, end, lists' := PerformOne(vol, cs, now, calls[k], lists');
      ExplainedThen(cs, plans, calls, k, ends, end, PlanOf(vol, now, lists'));
      ends, plans := ends + [end], plans + [PlanOf(vol, now, lists')];
    }
    assert calls[..|calls|] == calls;
    LengthsAfter(cs, plans, calls, ends);
  }

  /** One call. What leaks is everything that was clear; only a full volume refuses. */
  method PerformOne(vol: ExfatHeap, cs: nat, files: seq<Extent>, call: Call, ghost lists: seq<seq<nat>>)
      returns (now: seq<Extent>, r: Outcome, ghost lists': seq<seq<nat>>)
    requires Live(vol, cs, files, lists)
    modifies vol
    ensures Live(vol, cs, now, lists')
    ensures Explains(cs, old(PlanOf(vol, files, lists)), call, r, PlanOf(vol, now, lists'))
    ensures Stray(vol.Used(), lists') == if r.Leaked?
      then old(Stray(vol.Used(), lists)) + old(ClearIn(vol.Used(), vol.count)) else old(Stray(vol.Used(), lists))
  {
    ghost var used := vol.Used();
    ClearCount(vol, cs, files, lists);
    now, r, lists' := Serve(vol, cs, files, call, lists);
    ClearCount(vol, cs, now, lists');
    LeakCount(used, vol.count, Stray(used, lists));
  }

  /** How a call ends, with `clear` clusters clear, and what it does to entries and lists. */
  ghost predicate Served(cs: nat, files: seq<Extent>, lists: seq<seq<nat>>, clear: nat, call: Call, r: Outcome,
      now: seq<Extent>, lists': seq<seq<nat>>)
    requires cs > 0 && |lists| == |files|
  {
    && (r.Done? <==> Possible(cs, files, call) && Wants(cs, files, call) <= clear)
    && Lengths(now) == (if r.Done? then After(Lengths(files), call) else Lengths(files))
    && (r.Done? ==>
          Sizes(lists') == HeldAfter(cs, Plan(files, Sizes(lists), clear), call) && OthersKept(files, call, now))
    && (!r.Done? ==> now == files)
    && (r.Leaked? ==> lists' == lists && Possible(cs, files, call) && Leaky(files, call))
    && (r.Refused? && Possible(cs, files, call) ==> !Leaky(files, call))
    && (!Possible(cs, files, call) ==> lists' == lists)
  }

  lemma GrownServed(cs: nat, files: seq<Extent>, lists: seq<seq<nat>>, clear: nat, i: nat, f: Extent, s: seq<nat>)
    requires cs > 0 && i < |files| == |lists| && f.length > files[i].length
    requires Wants(cs, files, Resize(i, f.length)) <= clear
    requires |s| == |lists[i]| + Wants(cs, files, Resize(i, f.length))
    ensures Served(cs, files, lists, clear, Resize(i, f.length), Done, files[i := f], lists[i := s])
  {
  }

  lemma CreatedServed(cs: nat, files: seq<Extent>, lists: seq<seq<nat>>, clear: nat, f: Extent, s: seq<nat>)
    requires cs > 0 && |files| == |lists| && Possible(cs, files, Create(f.length))
    requires |s| == DivCeil(f.length, cs) <= clear
    ensures Served(cs, files, lists, clear, Create(f.length), Done, files + [f], lists + [s])
  {
  }

  lemma LeakedServed(cs: nat, files: seq<Extent>, lists: seq<seq<nat>>, clear: nat, n: nat)
    requires cs > 0 && |files| == |lists| && Possible(cs, files, Create(n)) && clear < DivCeil(n, cs)
    ensures Served(cs, files, lists, clear, Create(n), Leaked, files, lists)
  {
  }

  lemma SameServed(cs: nat, files: seq<Extent>, lists: seq<seq<nat>>, clear: nat, i: nat)
    requires cs > 0 && i < |files| == |lists|
    ensures Served(cs, files, lists, clear, Resize(i, files[i].length), Done, files, lists)
  {
  }

  lemma RefusedServed(cs: nat, files: seq<Extent>, lists: seq<seq<nat>>, clear: nat, i: nat, n: nat, r: Outcome,
      lists': seq<seq<nat>>)
    requires cs > 0 && i < |files| == |lists| && clear < Wants(cs, files, Resize(i, n)) && !r.Done?
    requires if Leaky(files, Resize(i, n)) then r.Leaked? && lists' == lists else r.Refused?
    ensures Served(cs, files, lists, clear, Resize(i, n), r, files, lists')
  {
  }

  lemma CutServed(cs: nat, files: seq<Extent>, lists: seq<seq<nat>>, clear: nat, i: nat, f: Extent, s: seq<nat>)
    requires cs > 0 && i < |files| == |lists| && f.length < files[i].length
    requires |s| == if DivCeil(f.length, cs) < DivCeil(files[i].length, cs) then DivCeil(f.length, cs) else |lists[i]|
    ensures Served(cs, files, lists, clear, Resize(i, f.length), Done, files[i := f], lists[i := s])
  {
  }

  lemma GoneServed(cs: nat, files: seq<Extent>, lists: seq<seq<nat>>, clear: nat, i: nat)
    requires cs > 0 && i < |files| == |lists|
    ensures Served(cs, files, lists, clear, Remove(i), Done, files[..i] + files[i + 1..], lists[..i] + lists[i + 1..])
  {
    assert Lengths(files[..i] + files[i + 1..]) == Lengths(files)[..i] + Lengths(files)[i + 1..];
    assert Sizes(lists[..i] + lists[i + 1..]) == Sizes(lists)[..i] + Sizes(lists)[i + 1..];
  }

  method Serve(vol: ExfatHeap, cs: nat, files: seq<Extent>, call: Call, ghost lists: seq<seq<nat>>)
      returns (now: seq<Extent>, r: Outcome, ghost lists': seq<seq<nat>>)
    requires Live(vol, cs, files, lists)
    modifies vol
    ensures Live(vol, cs, now, lists')
    ensures Stray(vol.Used(), lists') == if r.Leaked?
      then old(Stray(vol.Used(), lists)) + old(ClearIn(vol.Used(), vol.count)) else old(Stray(vol.Used(), lists))
    ensures Served(cs, files, lists, |ClearIn(old(vol.Used()), vol.count)|, call, r, now, lists')
    ensures !r.Done? && Possible(cs, files, call) ==> ClearIn(vol.Used(), vol.count) == {}
    ensures !Possible(cs, files, call) ==> vol.Used() == old(vol.Used())
  {
    now, r, lists' := files, Refused, lists;
    match call
    case Create(n) =>
      if n == 0 {
        now, r, lists' := files + [EMPTY], Done, lists + [[]];
        EmptyAdded(vol.Cells(), vol.Used(), vol.count, cs, files, lists);
        RoundedUp(0, cs, 0);
        CreatedServed(cs, files, lists, |ClearIn(vol.Used(), vol.count)|, EMPTY, []);
      } else if DivCeil(n, cs) <= U32_MAX {
        now, r, lists' := CreateFile(vol, cs, files, n, lists);
      }
    case Resize(i, n) =>
      if i < |files| {
        if n < files[i].length {
          now, lists' := ShrinkFile(vol, cs, files, i, n, lists);
          r := Done;
        } else if n > files[i].length {
          now, r, lists' := GrowFile(vol, cs, files, i, n, lists);
        } else {
          SameServed(cs, files, lists, |ClearIn(vol.Used(), vol.count)|, i);
          r := Done;
        }
      }
    case Remove(i) =>
      if i < |files| {
        now, lists' := RemoveFile(vol, cs, files, i, lists);
        r := Done;
      }
  }

  /** Open a file from its entry: what is allocated to it is its length in whole clusters. */
  method Open(vol: ExfatHeap, cs: nat, f: Extent, ghost s: seq<nat>) returns (m: ExfatClusterMap)
    requires vol.Valid() && cs > 0 && Sound(vol.Cells(), vol.Used(), vol.count, cs, f, s)
    ensures fresh(m) && m.Valid() && m.vol == vol && m.clusterSize == cs
    ensures m.clusters == s && m.noFatChain == f.noFatChain && m.allocatedLen == Units(DivCeil(f.length, cs), cs)
  {
    RoundedUp(f.length, cs, |s|);
    var size := if f.first >= 2 then Units(DivCeil(f.length, cs), cs) else 0;
    m := new ExfatClusterMap(vol, cs, f.first, size, f.noFatChain, s);
  }

  method CreateFile(vol: ExfatHeap, cs: nat, files: seq<Extent>, n: nat, ghost lists: seq<seq<nat>>)
      returns (now: seq<Extent>, r: Outcome, ghost lists': seq<seq<nat>>)
    requires n > 0 && Live(vol, cs, files, lists) && DivCeil(n, cs) <= U32_MAX
    modifies vol
    ensures Live(vol, cs, now, lists')
    ensures Stray(vol.Used(), lists') == if r.Leaked?
      then old(Stray(vol.Used(), lists)) + old(ClearIn(vol.Used(), vol.count)) else old(Stray(vol.Used(), lists))
    ensures Served(cs, files, lists, |ClearIn(old(vol.Used()), vol.count)|, Create(n), r, now, lists')
    ensures !r.Done? ==> r.Leaked? && ClearIn(vol.Used(), vol.count) == {}
  {
    ghost var t, used := vol.Cells(), vol.Used();
    var made;
    ghost var s;
    made, s := AllocateExtent(vol, DivCeil(n, cs));
    now, r, lists' := files, Leaked, lists;
    if made.Ok? {
      var f := Extent(made.value.0, n, made.value.1);
      now, r, lists' := files + [f], Done, lists + [s];
      CreatedSound(used, t, vol.Used(), vol.Cells(), vol.count, cs, f, s);
      Added(t, used, vol.Cells(), vol.Used(), vol.count, cs, files, lists, f, s);
      CreatedServed(cs, files, lists, |ClearIn(used, vol.count)|, f, s);
    } else {
      AllMarked(used, vol.Used(), vol.count);
      MarksLeaked(t, used, vol.Used(), vol.count, cs, files, lists);
      LeakedServed(cs, files, lists, |ClearIn(used, vol.count)|, n);
    }
  }

  /** Grow a file with a handle that does not know its tail. */
  method GrowFile(vol: ExfatHeap, cs: nat, files: seq<Extent>, i: nat, n: nat, ghost lists: seq<seq<nat>>)
      returns (now: seq<Extent>, r: Outcome, ghost lists': seq<seq<nat>>)
    requires i < |files| && n > files[i].length && Live(vol, cs, files, lists)
    modifies vol
    ensures Live(vol, cs, now, lists')
    ensures Stray(vol.Used(), lists') == if r.Leaked?
      then old(Stray(vol.Used(), lists)) + old(ClearIn(vol.Used(), vol.count)) else old(Stray(vol.Used(), lists))
    ensures Served(cs, files, lists, |ClearIn(old(vol.Used()), vol.count)|, Resize(i, n), r, now, lists')
    ensures !r.Done? ==> ClearIn(vol.Used(), vol.count) == {}
  {
    ghost var t, used, s := vol.Cells(), vol.Used(), lists[i];
    var f := files[i];
    var m := Open(vol, cs, f, s);
    LackingRounded(f.length, n, cs, |s|);
    var grown := m.Extend(if f.first >= 2 then Some(f.first) else None, None, n);
    ghost var clear := |ClearIn(used, vol.count)|;
    if grown.Ok? {
      var f' := Extent(grown.value.first, n, m.noFatChain);
      now, r, lists' := files[i := f'], Done, lists[i := m.clusters];
      GrownStep(t, used, vol.Cells(), vol.Used(), vol.count, cs, files, lists, i, f', m.clusters, m.allocatedLen);
      GrownServed(cs, files, lists, clear, i, f', m.clusters);
    } else if f.length == 0 || f.noFatChain {
      now, r, lists' := files, Leaked, lists;
      LeftStep(t, used, vol.Cells(), vol.Used(), vol.count, cs, files, lists, i, m.clusters);
      RefusedServed(cs, files, lists, clear, i, n, r, lists');
    } else {
      now, r, lists' := files, Refused, lists[i := m.clusters];
      KeptStep(t, used, vol.Cells(), vol.Used(), vol.count, cs, files, lists, i, m.clusters);
      RefusedServed(cs, files, lists, clear, i, n, r, lists');
    }
  }

  method ShrinkFile(vol: ExfatHeap, cs: nat, files: seq<Extent>, i: nat, n: nat, ghost lists: seq<seq<nat>>)
      returns (now: seq<Extent>, ghost lists': seq<seq<nat>>)
    requires i < |files| && n < files[i].length && Live(vol, cs, files, lists)
    modifies vol
    ensures Live(vol, cs, now, lists')
    ensures Stray(vol.Used(), lists') == old(Stray(vol.Used(), lists))
    ensures Served(cs, files, lists, |ClearIn(old(vol.Used()), vol.count)|, Resize(i, n), Done, now, lists')
  {
    ghost var t, used, s := vol.Cells(), vol.Used(), lists[i];
    var f := files[i];
    var m := Open(vol, cs, f, s);
    RoundedUp(f.length, cs, |s|);
    var first := m.FreeTail(f.first, n);
    var f' := Extent(first, n, m.noFatChain);
    now, lists' := files[i := f'], lists[i := m.clusters];
    CutStep(t, used, vol.Cells(), vol.Used(), vol.count, cs, files, lists, i, f', m.clusters);
    CutServed(cs, files, lists, |ClearIn(used, vol.count)|, i, f', m.clusters);
  }

  /** Free the clusters of an entry. */
  method FreeExtent(vol: ExfatHeap, cs: nat, f: Extent, ghost s: seq<nat>)
    requires vol.Valid() && cs > 0 && Sound(vol.Cells(), vol.Used(), vol.count, cs, f, s)
    modifies vol
    ensures vol.Valid() && Dropped(s, 0, old(vol.Used()), old(vol.Cells()), vol.Used(), vol.Cells())
  {
    if f.length == 0 || f.first < 2 {
      return;
    }
    ghost var t, used := vol.Cells(), vol.Used();
    assert s[0..] == s;
    var n := Min(DivCeil(f.length, cs), U32_MAX);
    if f.noFatChain {
      RunBounds(s, used, vol.count);
      vol.FreeRun(f.first, n);
      RunDropped(s, 0, used, t, vol.Used());
    } else {
      WalkedChain(t, s);
      var _ := vol.FreeChain(f.first);
    }
  }

  method RemoveFile(vol: ExfatHeap, cs: nat, files: seq<Extent>, i: nat, ghost lists: seq<seq<nat>>)
      returns (now: seq<Extent>, ghost lists': seq<seq<nat>>)
    requires i < |files| && Live(vol, cs, files, lists)
    modifies vol
    ensures Live(vol, cs, now, lists')
    ensures Stray(vol.Used(), lists') == old(Stray(vol.Used(), lists))
    ensures Served(cs, files, lists, |ClearIn(old(vol.Used()), vol.count)|, Remove(i), Done, now, lists')
  {
    ghost var t, used, s := vol.Cells(), vol.Used(), lists[i];
    FreeExtent(vol, cs, files[i], s);
    now, lists' := files[..i] + files[i + 1..], lists[..i] + lists[i + 1..];
    assert s[0..] == s;
    Gone(t, used, vol.Cells(), vol.Used(), vol.count, cs, files, lists, i);
    GoneServed(cs, files, lists, |ClearIn(used, vol.count)|, i);
  }

  // ---------------------------------------------------------------- counting

  /** The clusters a file lacks to grow: what the new length needs beyond what the old one needed. */
  lemma LackingRounded(length: nat, n: nat, cs: nat, held: nat)
    requires cs > 0 && n > length && (held == 0 <==> length == 0)
    ensures Lacking(held, Units(DivCeil(length, cs), cs), cs, n) == SatSub(DivCeil(n, cs), DivCeil(length, cs))
  {
    var d := DivCeil(length, cs);
    var left := Max(0, n - Units(d, cs));
    var m := SatSub(DivCeil(n, cs), d);
    LackingIs(held, Units(d, cs), cs, n);
    DivCeilLeast(length, cs, 0);
    DivCeilLeast(n, cs, 0);
    UnitsSplit(d, m, cs);
    UnitsSplit(d, DivCeil(left, cs), cs);
    DivCeilCovers(n, cs);
    DivCeilCovers(left, cs);
    DivCeilLeast(n, cs, d + DivCeil(left, cs));
    DivCeilLeast(left, cs, m);
    UnitsMono(DivCeil(n, cs), d + m, cs);
  }

  /** Every cluster of the heap is clear, held by one file, or stray. */
  lemma ClearCount(vol: ExfatHeap, cs: nat, files: seq<Extent>, lists: seq<seq<nat>>)
    requires Live(vol, cs, files, lists)
    ensures |ClearIn(vol.Used(), vol.count)| + Total(Sizes(lists)) + |Stray(vol.Used(), lists)| == vol.count
  {
    HeldApart(vol.Cells(), vol.Used(), vol.count, cs, files, lists);
    HeldCount(lists);
    Parts(vol.Used(), vol.count, lists);
  }

  /** No file holds a cluster twice, or one that another holds, or one that is not in use. */
  ghost predicate HeldOnce(used: set<nat>, lists: seq<seq<nat>>) {
    && (forall i :: 0 <= i < |lists| ==> Distinct(lists[i]))
    && (forall i, j :: 0 <= i < j < |lists| ==> Disjoint(lists[i], lists[j]))
    && forall i, c :: 0 <= i < |lists| && c in lists[i] ==> c in used
  }

  lemma HeldApart(t: Table, used: set<nat>, count: nat, cs: nat, files: seq<Extent>, lists: seq<seq<nat>>)
    requires LiveOn(t, used, count, cs, files, lists)
    ensures HeldOnce(used, lists)
  {
    forall i | 0 <= i < |lists|
      ensures Distinct(lists[i]) && AllUsed(lists[i], used, count)
    {
      assert Sound(t, used, count, cs, files[i], lists[i]);
    }
  }

  lemma Parts(used: set<nat>, count: nat, lists: seq<seq<nat>>)
    requires HeldOnce(used, lists) && |Union(lists)| == Total(Sizes(lists))
    requires forall c :: c in used ==> 2 <= c <= count + 1
    ensures |ClearIn(used, count)| + Total(Sizes(lists)) + |Stray(used, lists)| == count
  {
    forall c
      ensures c in Union(lists) <==> Listed(c, lists)
    {
      UnionHas(lists, c);
    }
    assert used == Union(lists) + Stray(used, lists) && Union(lists) !! Stray(used, lists);
    HeapCount(count);
    assert HeapSet(count) == ClearIn(used, count) + used && ClearIn(used, count) !! used;
  }

  /** What leaks was not stray before. */
  lemma LeakCount(used: set<nat>, count: nat, stray: set<nat>)
    requires stray <= used
    ensures |stray + ClearIn(used, count)| == |stray| + |ClearIn(used, count)|
  {
    assert stray !! ClearIn(used, count);
  }

  ghost function Union(lists: seq<seq<nat>>): set<nat> {
    if lists == [] then {} else Union(lists[..|lists| - 1]) + Elems(lists[|lists| - 1])
  }

  lemma {:induction false} UnionHas(lists: seq<seq<nat>>, c: nat)
    ensures c in Union(lists) <==> Listed(c, lists)
  {
    if lists == [] {
    } else {
      var n := |lists| - 1;
      UnionHas(lists[..n], c);
      if i :| 0 <= i < |lists| && c in lists[i] {
        assert i < n ==> lists[..n][i] == lists[i];
      }
      if i :| 0 <= i < n && c in lists[..n][i] {
        assert lists[i] == lists[..n][i];
      }
    }
  }

  lemma {:induction false} HeldCount(lists: seq<seq<nat>>)
    requires forall i :: 0 <= i < |lists| ==> Distinct(lists[i])
    requires forall i, j :: 0 <= i < j < |lists| ==> Disjoint(lists[i], lists[j])
    ensures |Union(lists)| == Total(Sizes(lists))
  {
    if lists == [] {
    } else {
      var n := |lists| - 1;
      HeldCount(lists[..n]);
      ElemsCount(lists[n]);
      assert Sizes(lists)[..n] == Sizes(lists[..n]);
      forall c | c in Union(lists[..n])
        ensures c !in lists[n]
      {
        UnionHas(lists[..n], c);
        var i :| 0 <= i < n && c in lists[..n][i];
        assert Disjoint(lists[i], lists[n]);
      }
      assert Union(lists[..n]) !! Elems(lists[n]);
    }
  }

  ghost function HeapSet(count: nat): set<nat> { set c: nat | c < count + 2 && ExfatMaps.Heap(c, count) }

  lemma {:induction false} HeapCount(count: nat)
    ensures |HeapSet(count)| == count
  {
    if count == 0 {
      assert HeapSet(0) == {};
    } else {
      HeapCount(count - 1);
      assert HeapSet(count) == HeapSet(count - 1) + {count + 1};
    }
  }

  // ---------------------------------------------------------------- one file

  /** Rounding a length up to whole clusters changes nothing a cluster count depends on. */
  lemma RoundedUp(length: nat, cs: nat, n: nat)
    requires cs > 0
    ensures DivCeil(Units(DivCeil(length, cs), cs), cs) == DivCeil(length, cs)
    ensures length <= Units(DivCeil(length, cs), cs) && (DivCeil(length, cs) == 0 <==> length == 0)
    ensures length <= Units(n, cs) <==> DivCeil(length, cs) <= n
    ensures length <= Units(n, cs) ==> Units(DivCeil(length, cs), cs) <= Units(n, cs)
  {
    DivCeilUnits(DivCeil(length, cs), cs);
    DivCeilCovers(length, cs);
    DivCeilLeast(length, cs, 0);
    DivCeilLeast(length, cs, n);
    if DivCeil(length, cs) <= n {
      UnitsMono(DivCeil(length, cs), n, cs);
    }
  }

  /** A new extent is a file of that many clusters. */
  lemma CreatedSound(used: set<nat>, t: Table, used': set<nat>, u: Table, count: nat, cs: nat, f: Extent, s: seq<nat>)
    requires cs > 0 && f.length > 0 && DivCeil(f.length, cs) <= U32_MAX && f.first == FirstField(s)
    requires Allocated(used, t, used', u, count, s, DivCeil(f.length, cs), f.noFatChain)
    ensures Sound(u, used', count, cs, f, s) && Moves(t, used, u, used', [], s, {})
  {
    RoundedUp(f.length, cs, |s|);
    assert forall i :: 0 <= i < |s| ==> s[i] in s;
  }

  /** A file grew as asked. */
  lemma GrownStep(t: Table, used: set<nat>, u: Table, used': set<nat>, count: nat, cs: nat, files: seq<Extent>,
      lists: seq<seq<nat>>, i: nat, f: Extent, s: seq<nat>, size: nat)
    requires i < |files| && LiveOn(t, used, count, cs, files, lists) && files[i].length < f.length
    requires Grew(lists[i], used, t, s, used', u, count) && AllUsed(s, used', count)
    requires LawfulMap(MapState(s, size), cs) && s != [] && f.length <= size && f.first == s[0]
    requires if f.noFatChain
             then files[i].noFatChain && s == lists[i] && size == Units(DivCeil(files[i].length, cs), cs)
             else IsChain(u, s)
    ensures LiveOn(u, used', count, cs, files[i := f], lists[i := s])
    ensures Stray(used', lists[i := s]) == Stray(used, lists)
  {
    assert Sound(t, used, count, cs, files[i], lists[i]);
    GrewMoves(t, used, u, used', count, lists[i], s);
    if f.noFatChain {
      SameCount(files[i].length, f.length, cs);
    }
    Stepped(t, used, u, used', count, cs, files, lists, i, f, s, {});
  }

  lemma SameCount(a: nat, b: nat, cs: nat)
    requires cs > 0 && a <= b <= Units(DivCeil(a, cs), cs)
    ensures DivCeil(b, cs) == DivCeil(a, cs)
  {
    DivCeilLeast(b, cs, DivCeil(a, cs));
    DivCeilCovers(b, cs);
    DivCeilLeast(a, cs, DivCeil(b, cs));
  }

  lemma GrewMoves(t: Table, used: set<nat>, u: Table, used': set<nat>, count: nat, s: seq<nat>, s': seq<nat>)
    requires Grew(s, used, t, s', used', u, count) && AllUsed(s, used, count)
    ensures Moves(t, used, u, used', s, s', {})
  {
    forall c | c in s'
      ensures c in s || (c in s'[|s|..] && c in ClearIn(used, count))
    {
      var k :| 0 <= k < |s'| && s'[k] == c;
      assert k < |s| ==> s[k] == c;
      assert k >= |s| ==> s'[|s|..][k - |s|] == c;
    }
    forall c | c in s
      ensures c in s' && c in used
    {
      var k :| 0 <= k < |s| && s[k] == c;
      assert s'[k] == c;
    }
  }

  /** A chained file whose growth was refused has the clusters it got so far. */
  lemma KeptStep(t: Table, used: set<nat>, u: Table, used': set<nat>, count: nat, cs: nat, files: seq<Extent>,
      lists: seq<seq<nat>>, i: nat, s: seq<nat>)
    requires i < |files| && LiveOn(t, used, count, cs, files, lists)
    requires files[i].length > 0 && !files[i].noFatChain
    requires Grew(lists[i], used, t, s, used', u, count) && AllUsed(s, used', count) && IsChain(u, s)
    requires Distinct(s) && InHeap(s) && |s| <= U32_MAX
    ensures LiveOn(u, used', count, cs, files, lists[i := s])
    ensures Stray(used', lists[i := s]) == Stray(used, lists)
  {
    assert Sound(t, used, count, cs, files[i], lists[i]);
    GrewMoves(t, used, u, used', count, lists[i], s);
    UnitsMono(|lists[i]|, |s|, cs);
    Stepped(t, used, u, used', count, cs, files, lists, i, files[i], s, {});
    assert files[i := files[i]] == files;
  }

  /** The entry of an empty or contiguous file whose growth was refused says what it said before:
      what was clear is marked and lost. */
  lemma LeftStep(t: Table, used: set<nat>, u: Table, used': set<nat>, count: nat, cs: nat, files: seq<Extent>,
      lists: seq<seq<nat>>, i: nat, s: seq<nat>)
    requires i < |files| && LiveOn(t, used, count, cs, files, lists)
    requires files[i].length == 0 || files[i].noFatChain
    requires Grew(lists[i], used, t, s, used', u, count) && ClearIn(used', count) == {}
    ensures LiveOn(u, used', count, cs, files, lists)
    ensures Stray(used', lists) == Stray(used, lists) + ClearIn(used, count)
  {
    assert Sound(t, used, count, cs, files[i], lists[i]);
    LeftMoves(t, used, u, used', count, lists[i], s);
    Stepped(t, used, u, used', count, cs, files, lists, i, files[i], lists[i], ClearIn(used, count));
    assert files[i := files[i]] == files && lists[i := lists[i]] == lists;
  }

  lemma LeftMoves(t: Table, used: set<nat>, u: Table, used': set<nat>, count: nat, s: seq<nat>, s': seq<nat>)
    requires Grew(s, used, t, s', used', u, count) && ClearIn(used', count) == {} && AllUsed(s, used, count)
    ensures Moves(t, used, u, used', s, s, ClearIn(used, count)) && used <= used'
  {
    GrewMoves(t, used, u, used', count, s, s');
    forall c
      ensures c in used' <==> c in used || c in ClearIn(used, count)
    {
      assert c in ClearIn(used, count) ==> c in used' || c in ClearIn(used', count);
      if c in s'[|s|..] {
        var k :| 0 <= k < |s'[|s|..]| && s'[|s|..][k] == c;
        assert s'[|s| + k] in ClearIn(used, count);
      }
    }
  }

  /** A file was cut. */
  lemma CutStep(t: Table, used: set<nat>, u: Table, used': set<nat>, count: nat, cs: nat, files: seq<Extent>,
      lists: seq<seq<nat>>, i: nat, f: Extent, s: seq<nat>)
    requires i < |files| && LiveOn(t, used, count, cs, files, lists) && f.length < files[i].length && s <= lists[i]
    requires cs > 0 && |s| == if DivCeil(f.length, cs) < DivCeil(files[i].length, cs) then DivCeil(f.length, cs)
                              else |lists[i]|
    requires Dropped(lists[i], |s|, used, t, used', u) && AllUsed(s, used', count) && f.first == FirstField(s)
    requires if f.noFatChain then files[i].noFatChain else s != [] ==> IsChain(u, s)
    ensures LiveOn(u, used', count, cs, files[i := f], lists[i := s])
    ensures Stray(used', lists[i := s]) == Stray(used, lists)
  {
    var was := files[i];
    assert Sound(t, used, count, cs, was, lists[i]);
    RoundedUp(f.length, cs, |s|);
    RoundedUp(was.length, cs, |lists[i]|);
    DivCeilLeast(f.length, cs, DivCeil(was.length, cs));
    DroppedMoves(t, used, u, used', count, lists[i], s);
    Stepped(t, used, u, used', count, cs, files, lists, i, f, s, {});
  }

  lemma DroppedMoves(t: Table, used: set<nat>, u: Table, used': set<nat>, count: nat, s: seq<nat>, s': seq<nat>)
    requires s' <= s && Distinct(s) && AllUsed(s, used, count) && Dropped(s, |s'|, used, t, used', u)
    ensures Moves(t, used, u, used', s, s', {})
  {
    assert s == s' + s[|s'|..];
    assert forall c :: c in s <==> c in s' || c in s[|s'|..];
    assert forall c :: c in s' ==> c !in s[|s'|..];
    assert forall c :: c in s ==> c in used;
  }

  // ---------------------------------------------------------------- one step

  /** A file's list turned from `s` to `s'`, by clusters that were clear, and `extra` clear clusters
      were marked besides; no other cluster in use changed. */
  ghost predicate Moves(t: Table, used: set<nat>, u: Table, used': set<nat>, s: seq<nat>, s': seq<nat>,
      extra: set<nat>) {
    && |u| == |t|
    && (forall c :: c in used' <==> (c in used && c !in s) || c in s' || c in extra)
    && (forall c :: c in s' ==> c in s || c !in used)
    && (forall c :: c in extra ==> c !in used && c !in s')
    && forall c: nat :: c < |t| && c in used && c !in s ==> u[c] == t[c]
  }

  /** One file changed, and every other is as it was. */
  lemma Stepped(t: Table, used: set<nat>, u: Table, used': set<nat>, count: nat, cs: nat, files: seq<Extent>,
      lists: seq<seq<nat>>, i: nat, f: Extent, s: seq<nat>, extra: set<nat>)
    requires i < |files| && LiveOn(t, used, count, cs, files, lists) && Moves(t, used, u, used', lists[i], s, extra)
    requires Sound(u, used', count, cs, f, s)
    ensures LiveOn(u, used', count, cs, files[i := f], lists[i := s])
    ensures Stray(used', lists[i := s]) == Stray(used, lists) + extra
  {
    forall j | 0 <= j < |lists| && j != i
      ensures Sound(u, used', count, cs, files[j], lists[j])
      ensures Disjoint(lists[j], lists[i]) && Disjoint(lists[j], s) && Disjoint(s, lists[j])
    {
      Others(t, used, u, used', count, cs, files[j], lists[j], lists[i], s, extra);
    }
    forall c: nat
      ensures c in Stray(used', lists[i := s]) <==> c in Stray(used, lists) + extra
    {
      StrayAt(used, used', lists, i, s, extra, c);
    }
  }

  /** A file the call is not about. */
  lemma Others(t: Table, used: set<nat>, u: Table, used': set<nat>, count: nat, cs: nat, f: Extent, r: seq<nat>,
      s: seq<nat>, s': seq<nat>, extra: set<nat>)
    requires Sound(t, used, count, cs, f, r) && Disjoint(r, s) && Moves(t, used, u, used', s, s', extra)
    ensures Sound(u, used', count, cs, f, r) && Disjoint(r, s') && Disjoint(s', r)
  {
    assert forall c :: c in r ==> c in used && c in used';
    if r != [] && !f.noFatChain {
      ChainFrame(t, u, r);
    }
  }

  lemma StrayAt(used: set<nat>, used': set<nat>, lists: seq<seq<nat>>, i: nat, s: seq<nat>, extra: set<nat>, c: nat)
    requires i < |lists|
    requires forall j :: 0 <= j < |lists| && j != i ==> Disjoint(lists[j], lists[i]) && Disjoint(lists[j], s)
    requires forall j, d :: 0 <= j < |lists| && d in lists[j] ==> d in used
    requires c in used' <==> (c in used && c !in lists[i]) || c in s || c in extra
    requires c in s ==> c in lists[i] || c !in used
    requires c in extra ==> c !in used && c !in s
    ensures c in Stray(used', lists[i := s]) <==> c in Stray(used, lists) + extra
  {
    var after := lists[i := s];
    assert after[i] == s;
    if j :| 0 <= j < |lists| && c in lists[j] {
      assert j != i ==> after[j] == lists[j];
    }
    if j :| 0 <= j < |after| && c in after[j] {
      assert j != i ==> after[j] == lists[j];
    }
  }

  /** A file joins the others. */
  lemma Added(t: Table, used: set<nat>, u: Table, used': set<nat>, count: nat, cs: nat, files: seq<Extent>,
      lists: seq<seq<nat>>, f: Extent, s: seq<nat>)
    requires LiveOn(t, used, count, cs, files, lists) && Sound(u, used', count, cs, f, s)
    requires Moves(t, used, u, used', [], s, {})
    ensures LiveOn(u, used', count, cs, files + [f], lists + [s])
    ensures Stray(used', lists + [s]) == Stray(used, lists)
  {
    EmptyAdded(t, used, count, cs, files, lists);
    Stepped(t, used, u, used', count, cs, files + [EMPTY], lists + [[]], |files|, f, s, {});
    assert (files + [EMPTY])[|files| := f] == files + [f] && (lists + [[]])[|files| := s] == lists + [s];
  }

  /** A file goes. */
  lemma Gone(t: Table, used: set<nat>, u: Table, used': set<nat>, count: nat, cs: nat, files: seq<Extent>,
      lists: seq<seq<nat>>, i: nat)
    requires i < |files| && cs > 0 && LiveOn(t, used, count, cs, files, lists)
    requires Moves(t, used, u, used', lists[i], [], {})
    ensures LiveOn(u, used', count, cs, files[..i] + files[i + 1..], lists[..i] + lists[i + 1..])
    ensures Stray(used', lists[..i] + lists[i + 1..]) == Stray(used, lists)
  {
    var none, rest := files[i := EMPTY], lists[i := []];
    Stepped(t, used, u, used', count, cs, files, lists, i, EMPTY, [], {});
    EmptyDropped(u, used', count, cs, none, rest, i);
    assert none[..i] == files[..i] && none[i + 1..] == files[i + 1..];
    assert rest[..i] == lists[..i] && rest[i + 1..] == lists[i + 1..];
  }

  /** A file of length 0 joins the others. */
  lemma EmptyAdded(t: Table, used: set<nat>, count: nat, cs: nat, files: seq<Extent>, lists: seq<seq<nat>>)
    requires cs > 0 && LiveOn(t, used, count, cs, files, lists)
    ensures LiveOn(t, used, count, cs, files + [EMPTY], lists + [[]])
    ensures Stray(used, lists + [[]]) == Stray(used, lists)
  {
    forall c
      ensures Listed(c, lists + [[]]) <==> Listed(c, lists)
    {
      if i :| 0 <= i < |lists| && c in lists[i] {
        assert (lists + [[]])[i] == lists[i];
      }
    }
  }

  /** A file of length 0 goes. */
  lemma EmptyDropped(t: Table, used: set<nat>, count: nat, cs: nat, files: seq<Extent>, lists: seq<seq<nat>>, i: nat)
    requires i < |files| && LiveOn(t, used, count, cs, files, lists) && lists[i] == []
    ensures LiveOn(t, used, count, cs, files[..i] + files[i + 1..], lists[..i] + lists[i + 1..])
    ensures Stray(used, lists[..i] + lists[i + 1..]) == Stray(used, lists)
  {
    var rest := lists[..i] + lists[i + 1..];
    forall c
      ensures Listed(c, rest) <==> Listed(c, lists)
    {
      if j :| 0 <= j < |lists| && c in lists[j] {
        assert rest[if j < i then j else j - 1] == lists[j];
      }
      if j :| 0 <= j < |rest| && c in rest[j] {
        assert rest[j] == lists[if j < i then j else j + 1];
      }
    }
  }

  /** In a full volume every cluster of the heap is in use. */
  lemma AllMarked(used: set<nat>, used': set<nat>, count: nat)
    requires ClearIn(used', count) == {} && forall c :: c in used ==> 2 <= c <= count + 1
    requires forall c :: c in used' ==> 2 <= c <= count + 1
    ensures forall c :: c in used' <==> c in used || c in ClearIn(used, count)
  {
    forall c: nat | 2 <= c <= count + 1
      ensures c in used'
    {
      assert c in used' || c in ClearIn(used', count);
    }
  }

  /** Marking all that was clear, and giving it to no file. */
  lemma MarksLeaked(t: Table, used: set<nat>, used': set<nat>, count: nat, cs: nat, files: seq<Extent>,
      lists: seq<seq<nat>>)
    requires LiveOn(t, used, count, cs, files, lists)
    requires forall c :: c in used' <==> c in used || c in ClearIn(used, count)
    ensures LiveOn(t, used', count, cs, files, lists)
    ensures Stray(used', lists) == Stray(used, lists) + ClearIn(used, count)
  {
    forall c, j | 0 <= j < |lists| && c in lists[j]
      ensures c in used
    {
      assert Sound(t, used, count, cs, files[j], lists[j]);
    }
    forall j | 0 <= j < |lists|
      ensures Sound(t, used', count, cs, files[j], lists[j])
    {
      assert Sound(t, used, count, cs, files[j], lists[j]);
    }
  }
}
