/** The IPv4 address pool: a set of used addresses inside the usable range of a subnet. */
module Ipv4Pool {
  import opened Basics
  import opened BitWords
  import opened Ipv4

  datatype Error = NotIpv4 | TooSmall | NotInRange | InUse | NoSpace | NotUsed
  datatype Result<T> = Ok(value: T) | Err(error: Error)

  datatype Address = V4(quad: Quad) | Other

  /** A set of numbers between two bounds fills the range exactly when it has the size of the range. */
  lemma {:induction false} RangeSize(s: set<nat>, lo: nat, hi: int)
    requires lo <= hi + 1 && forall u <- s :: lo <= u <= hi
    ensures |s| <= hi - lo + 1
    ensures |s| == hi - lo + 1 <==> forall a :: lo <= a <= hi ==> a in s
    decreases hi - lo + 1
  {
    if hi < lo {
      assert s == {};
    } else {
      var t := s - {hi as nat};
      RangeSize(t, lo, hi - 1);
      assert forall a: nat :: lo <= a < hi ==> (a in s <==> a in t);
      if hi in s {
        assert |s| == |t| + 1;
        assert (forall a :: lo <= a <= hi ==> a in s) <==> forall a :: lo <= a <= hi - 1 ==> a in t;
      } else {
        assert s == t;
        assert lo <= hi && !(hi in s);
      }
    }
  }

  // ---- the cyclic search on sets --------------------------------------------------------

  function NextIn(lo: nat, hi: nat, a: nat): nat {
    if a >= hi then lo else a + 1
  }

  /** The first address not in use among the next `left` ones, going round from a. */
  function Search(used: set<nat>, lo: nat, hi: nat, a: nat, left: nat): Option<nat>
    decreases left
  {
    if left == 0 then None
    else if a !in used then Some(a)
    else Search(used, lo, hi, NextIn(lo, hi, a), left - 1)
  }

  function FirstFree(used: set<nat>, lo: nat, hi: nat, random: nat): Option<nat>
    requires lo <= hi
  {
    Search(used, lo, hi, StartOf(lo, hi, random), hi - lo + 1)
  }

  function StartOf(lo: nat, hi: nat, random: nat): (a: nat)
    requires lo <= hi
    ensures lo <= a <= hi
  {
    random % (hi - lo + 1) + lo
  }

  /** How many steps round from a it takes to come to x. */
  function Distance(lo: nat, hi: nat, a: nat, x: nat): int {
    if x >= a then x - a else hi - a + 1 + x - lo
  }

  /** Every address nearer than the one found is in use; if none is found all within reach are. */
  lemma {:induction false} SearchMeaning(used: set<nat>, lo: nat, hi: nat, a: nat, left: nat, x: nat)
    requires lo <= a <= hi && lo <= x <= hi
    ensures var r := Search(used, lo, hi, a, left);
            && (r.Some? ==> lo <= r.value <= hi && r.value !in used)
            && (r.Some? && Distance(lo, hi, a, x) < Distance(lo, hi, a, r.value) ==> x in used)
            && (r.None? && Distance(lo, hi, a, x) < left ==> x in used)
    decreases left
  {
    if left > 0 && a in used {
      SearchMeaning(used, lo, hi, NextIn(lo, hi, a), left - 1, x);
    }
  }

  /** From every start the search finds an address exactly when one is free. */
  lemma FirstFreeIff(used: set<nat>, lo: nat, hi: nat, random: nat)
    requires lo <= hi
    ensures FirstFree(used, lo, hi, random).None? <==> forall a :: lo <= a <= hi ==> a in used
    ensures var r := FirstFree(used, lo, hi, random); r.Some? ==> lo <= r.value <= hi && r.value !in used
  {
    var start := StartOf(lo, hi, random);
    forall a | lo <= a <= hi ensures FirstFree(used, lo, hi, random).None? ==> a in used {
      SearchMeaning(used, lo, hi, start, hi - lo + 1, a);
    }
    SearchMeaning(used, lo, hi, start, hi - lo + 1, lo);
  }

  // ---- calls on the set of used addresses -----------------------------------------------

  datatype Call = Alloc(random: Word) | Set(ip: Address) | Unset(ip: Address)
  datatype Reply = Granted(a: nat) | Done | Refused(e: Error)

  /** The used set after a call, and what the call answers. */
  function Answer(used: set<nat>, lo: nat, hi: nat, call: Call): (set<nat>, Reply)
    requires lo <= hi
  {
    match call
    case Alloc(random) => Taken(used, FirstFree(used, lo, hi, random))
    case Set(ip) => if ip.Other? then (used, Refused(NotIpv4)) else Registered(used, lo, hi, Number(ip.quad))
    case Unset(ip) => if ip.Other? then (used, Refused(NotIpv4)) else Released(used, Number(ip.quad))
  }

  function Taken(used: set<nat>, found: Option<nat>): (set<nat>, Reply) {
    if found.None? then (used, Refused(NoSpace)) else (used + {found.value}, Granted(found.value))
  }

  function Registered(used: set<nat>, lo: nat, hi: nat, a: nat): (set<nat>, Reply) {
    if !(lo <= a <= hi) then (used, Refused(NotInRange))
    else if a in used then (used, Refused(InUse))
    else (used + {a}, Done)
  }

  function Released(used: set<nat>, a: nat): (set<nat>, Reply) {
    if a in used then (used - {a}, Done) else (used, Refused(NotUsed))
  }

  function ReplyOf(r: Result<Quad>): Reply {
    match r case Ok(q) => Granted(Number(q)) case Err(e) => Refused(e)
  }

  function DoneOf(r: Result<()>): Reply {
    match r case Ok(_) => Done case Err(e) => Refused(e)
  }

  class Pool {
    const server: Quad
    const min: nat
    const max: nat
    var used: map<nat, bool>
    var running: bool

    ghost predicate Valid()
      reads this`used
    {
      min <= max < 0x1_0000_0000 && forall u <- used :: min <= u <= max
    }

    function Capacity(): int {
      max - min + 1
    }

    constructor (first: Quad, last: Quad)
      requires Number(first) <= Number(last)
      ensures Valid() && running && used.Keys == {Number(first)}
      ensures server == first && min == Number(first) && max == Number(last)
    {
      server, min, max := first, Number(first), Number(last);
      used, running := map[Number(first) := true], true;
    }

    /** For a mask of n <= 30 ones the pool is the block of 2^(32-n) addresses without its two ends. */
    static method FromSubnet(v4: bool, s: Subnet) returns (r: Result<Pool>)
      requires v4 ==> Sized(s)
      ensures !v4 ==> r == Err(NotIpv4)
      ensures v4 && s.ones > 30 ==> r == Err(TooSmall)
      ensures v4 && s.ones <= 30 ==> r.Ok? && fresh(r.value) && r.value.Valid() && r.value.running
      ensures v4 && s.ones <= 30 ==> r.value.used.Keys == {r.value.min} && Number(r.value.server) == r.value.min
      ensures v4 && s.ones <= 30 ==> r.value.min == Up(Network(s)) && r.value.max == Down(Network(s) + Spread(s))
      ensures v4 && s.ones <= 30 && Canonical(s) ==>
                r.value.min == Base(s) + 1 && r.value.max == Base(s) + Block(s.ones) - 2
    {
      if !v4 {
        return Err(NotIpv4);
      }
      if s.ones > 30 {
        return Err(TooSmall);
      }
      var first := FirstUsable(s);
      var last := LastUsable(s);
      RangeNotEmpty(s);
      var pool := new Pool(first, last);
      return Ok(pool);
    }

    lemma Count()
      requires Valid()
      ensures |used| <= Capacity()
      ensures |used| == Capacity() <==> forall a :: min <= a <= max ==> a in used
    {
      RangeSize(used.Keys, min, max);
    }

    /** Never negative, so the report of a broken pool is unreachable. */
    method Free() returns (n: nat)
      requires Valid()
      ensures n == Capacity() - |used|
    {
      Count();
      n := Capacity() - |used|;
    }

    method NextAddr(ip: nat) returns (next: nat, cycled: bool)
      ensures ip >= max ==> next == min && cycled
      ensures ip < max ==> next == ip + 1 && !cycled
    {
      if ip >= max {
        return min, true;
      }
      return ip + 1, false;
    }

    method GetUnused(random: Word) returns (r: Option<nat>)
      requires Valid()
      ensures r == FirstFree(used.Keys, min, max, random)
    {
      r := Scan(StartOf(min, max, random));
    }

    /** One round through the range; None stands for the fatal exit. */
    method Scan(start: nat) returns (r: Option<nat>)
      requires Valid() && min <= start <= max
      ensures r == Search(used.Keys, min, max, start, Capacity())
    {
      var next, stop, cycled := start, start, false;
      while !cycled || next != stop
        invariant min <= next <= max && (if cycled then next <= stop else stop <= next)
        invariant Search(used.Keys, min, max, start, Capacity())
               == Search(used.Keys, min, max, next, Left(next, stop, cycled))
        decreases Left(next, stop, cycled)
      {
        if next !in used {
          return Some(next);
        }
        var round;
        next, round := NextAddr(next);
        cycled := cycled || round;
      }
      return None;
    }

    /** The addresses still to be looked at on the way round from next to stop. */
    function Left(next: nat, stop: nat, cycled: bool): nat
      requires min <= next <= max && min <= stop <= max && (cycled ==> next <= stop)
    {
      if cycled then stop - next else max - next + 1 + stop - min
    }

    method Alloc(random: Word) returns (r: Result<Quad>)
      requires Valid() && running
      modifies this`used
      ensures Valid()
      ensures used.Keys == Answer(old(used.Keys), min, max, Call.Alloc(random)).0
      ensures ReplyOf(r) == Answer(old(used.Keys), min, max, Call.Alloc(random)).1
      ensures r == Err(NoSpace) <==> |old(used)| == Capacity()
      ensures r.Ok? ==> min <= Number(r.value) <= max && Number(r.value) !in old(used)
    {
      var free := Free();
      Count();
      FirstFreeIff(used.Keys, min, max, random);
      if free == 0 {
        return Err(NoSpace);
      }
      var found := GetUnused(random);
      var ip := Uint32ToIp(found.value);
      var uip := ToUint32(ip);
      used := used[uip := true];
      assert used.Keys == old(used.Keys) + {uip};
      return Ok(ip);
    }

    method Available(random: Word) returns (r: Result<Quad>)
      requires Valid() && running
      ensures r == Err(NoSpace) <==> |used| == Capacity()
      ensures r.Ok? ==> Some(Number(r.value)) == FirstFree(used.Keys, min, max, random)
      ensures r.Ok? ==> min <= Number(r.value) <= max && Number(r.value) !in used
    {
      var free := Free();
      Count();
      FirstFreeIff(used.Keys, min, max, random);
      if free == 0 {
        return Err(NoSpace);
      }
      var found := GetUnused(random);
      var ip := Uint32ToIp(found.value);
      return Ok(ip);
    }

    /** A stopped pool may only be asked for what is refused before it is looked at. */
    method Set(ip: Address) returns (r: Result<()>)
      requires Valid() && (ip.V4? && min <= Number(ip.quad) <= max ==> running)
      modifies this`used
      ensures Valid()
      ensures used.Keys == Answer(old(used.Keys), min, max, Call.Set(ip)).0
      ensures DoneOf(r) == Answer(old(used.Keys), min, max, Call.Set(ip)).1
    {
      if ip.Other? {
        return Err(NotIpv4);
      }
      var uip := ToUint32(ip.quad);
      if uip < min || uip > max {
        return Err(NotInRange);
      }
      if uip in used {
        return Err(InUse);
      }
      used := used[uip := true];
      assert used.Keys == old(used.Keys) + {uip};
      return Ok(());
    }

    /** The server's own address can be released like any other. */
    method Unset(ip: Address) returns (r: Result<()>)
      requires Valid() && (ip.V4? ==> running)
      modifies this`used
      ensures Valid()
      ensures used.Keys == Answer(old(used.Keys), min, max, Call.Unset(ip)).0
      ensures DoneOf(r) == Answer(old(used.Keys), min, max, Call.Unset(ip)).1
    {
      if ip.Other? {
        return Err(NotIpv4);
      }
      var uip := ToUint32(ip.quad);
      if uip !in used {
        return Err(NotUsed);
      }
      used := used - {uip};
      assert used.Keys == old(used.Keys) - {uip};
      return Ok(());
    }

    method IsAvailable(ip: Address) returns (ok: bool)
      requires Valid()
      ensures ok <==> ip.V4? && min <= Number(ip.quad) <= max && Number(ip.quad) !in used
    {
      if ip.Other? {
        return false;
      }
      var uip := ToUint32(ip.quad);
      if uip < min || uip > max {
        return false;
      }
      return uip !in used;
    }

    /** The server's address, fixed when the pool is made, is the first of the range. */
    method Shutdown()
      requires Valid() && Number(server) == min
      modifies this`used, this`running
      ensures Valid() && !running && used.Keys == {min}
    {
      running := false;
      var uip := ToUint32(server);
      used := map[uip := true];
    }
  }

  lemma RangeNotEmpty(s: Subnet)
    requires Sized(s) && s.ones <= 30
    ensures Up(Network(s)) <= Down(Network(s) + Spread(s))
  {
    UpAtMost(Network(s));
    DownAtLeast(Network(s) + Spread(s));
    if Spread(s) < 2 {
      assert Canonical(s.(ones := if Spread(s) == 0 then 32 else 31)) by {
        assert Pow2(0) == 1 && Pow2(1) == 2;
      }
      assert Canonical(s) && Block(s.ones) < 4;
      EndsDoNotWrap(s);
    }
  }

  lemma UpAtMost(n: nat)
    ensures Up(n) <= n + 1
  {
  }

  lemma DownAtLeast(n: nat)
    ensures Down(n) >= n - 1
  {
  }

  // ---- runs ------------------------------------------------------------------------------

  /** The used set after any sequence of calls on a fresh pool, whose server address is lo. */
  function After(lo: nat, hi: nat, calls: seq<Call>): set<nat>
    requires lo <= hi
  {
    if calls == [] then {lo} else Answer(After(lo, hi, calls[..|calls| - 1]), lo, hi, calls[|calls| - 1]).0
  }

  function ReplyAt(lo: nat, hi: nat, calls: seq<Call>, k: nat): Reply
    requires lo <= hi && k < |calls|
  {
    Answer(After(lo, hi, calls[..k]), lo, hi, calls[k]).1
  }

  /** Whether an address is out, told from the first n calls and their answers alone: it was last granted
      or registered and not released since, or it is the server's and was not released. */
  ghost predicate Out(lo: nat, calls: seq<Call>, replies: seq<Reply>, n: nat, a: nat)
    requires n <= |calls| == |replies|
  {
    if n == 0 then a == lo
    else if replies[n - 1] == Granted(a) then true
    else if Names(calls[n - 1], a) && calls[n - 1].Set? && replies[n - 1] == Done then true
    else if Names(calls[n - 1], a) && calls[n - 1].Unset? && replies[n - 1] == Done then false
    else Out(lo, calls, replies, n - 1, a)
  }

  predicate Names(call: Call, a: nat) {
    !call.Alloc? && call.ip.V4? && Number(call.ip.quad) == a
  }

  ghost predicate Answered(lo: nat, hi: nat, calls: seq<Call>, replies: seq<Reply>)
    requires lo <= hi
  {
    |replies| == |calls| && forall k :: 0 <= k < |calls| ==> replies[k] == ReplyAt(lo, hi, calls, k)
  }

  /** One call changes what is used exactly as its answer says. */
  lemma AnswerTells(used: set<nat>, lo: nat, hi: nat, call: Call, a: nat)
    requires lo <= hi && forall u <- used :: lo <= u <= hi
    ensures var (after, reply) := Answer(used, lo, hi, call);
            && (a in after <==>
                  if reply == Granted(a) || (Names(call, a) && call.Set? && reply == Done) then true
                  else if Names(call, a) && call.Unset? && reply == Done then false
                  else a in used)
            && (a in after ==> lo <= a <= hi)
  {
    if call.Alloc? { FirstFreeIff(used, lo, hi, call.random); }
  }

  lemma {:induction false} OutIsUsed(lo: nat, hi: nat, calls: seq<Call>, replies: seq<Reply>, n: nat, a: nat)
    requires lo <= hi && Answered(lo, hi, calls, replies) && n <= |calls|
    ensures a in After(lo, hi, calls[..n]) <==> Out(lo, calls, replies, n, a)
    ensures a in After(lo, hi, calls[..n]) ==> lo <= a <= hi
    decreases n
  {
    if n > 0 {
      var used := After(lo, hi, calls[..n - 1]);
      forall u | u in used ensures lo <= u <= hi { OutIsUsed(lo, hi, calls, replies, n - 1, u); }
      OutIsUsed(lo, hi, calls, replies, n - 1, a);
      assert calls[..n][..n - 1] == calls[..n - 1] && calls[..n][n - 1] == calls[n - 1];
      assert replies[n - 1] == ReplyAt(lo, hi, calls, n - 1);
      AnswerTells(used, lo, hi, calls[n - 1], a);
    }
  }

  /** Over every sequence of calls: what an allocation hands out is in range and was not out, and it is refused
      exactly when every address is out. */
  lemma NeverTwice(lo: nat, hi: nat, calls: seq<Call>, replies: seq<Reply>, k: nat)
    requires lo <= hi && Answered(lo, hi, calls, replies) && k < |calls| && calls[k].Alloc?
    ensures replies[k].Granted? ==> lo <= replies[k].a <= hi && !Out(lo, calls, replies, k, replies[k].a)
    ensures replies[k].Granted? || replies[k] == Refused(NoSpace)
    ensures replies[k] == Refused(NoSpace) <==> forall x :: lo <= x <= hi ==> Out(lo, calls, replies, k, x)
  {
    assert replies[k] == ReplyAt(lo, hi, calls, k);
    var used := After(lo, hi, calls[..k]);
    forall x: nat ensures x in used <==> Out(lo, calls, replies, k, x) { OutIsUsed(lo, hi, calls, replies, k, x); }
    FirstFreeIff(used, lo, hi, calls[k].random);
  }

  /** An address is registered exactly when it is in range and not out, and released exactly when it is out. */
  lemma RegisteredOnce(lo: nat, hi: nat, calls: seq<Call>, replies: seq<Reply>, k: nat, a: nat)
    requires lo <= hi && Answered(lo, hi, calls, replies) && k < |calls| && Names(calls[k], a)
    ensures calls[k].Set? ==>
              replies[k] == if a < lo || a > hi then Refused(NotInRange)
                            else if Out(lo, calls, replies, k, a) then Refused(InUse) else Done
    ensures calls[k].Unset? ==> replies[k] == if Out(lo, calls, replies, k, a) then Done else Refused(NotUsed)
  {
    assert replies[k] == ReplyAt(lo, hi, calls, k);
    OutIsUsed(lo, hi, calls, replies, k, a);
  }

  /** Other addresses are refused and change nothing. */
  lemma OthersRefused(used: set<nat>, lo: nat, hi: nat, call: Call)
    requires lo <= hi && !call.Alloc? && call.ip.Other?
    ensures Answer(used, lo, hi, call) == (used, Refused(NotIpv4))
  {
  }

  /** Any free address can come out: the search may start right at it. */
  lemma AnyCanBeGranted(used: set<nat>, lo: nat, hi: nat, a: nat) returns (random: Word)
    requires lo <= a <= hi < 0x1_0000_0000 && a !in used
    ensures Answer(used, lo, hi, Alloc(random)) == (used + {a}, Granted(a))
  {
    random := a - lo;
    StartsAt(lo, hi, random);
  }

  lemma StartsAt(lo: nat, hi: nat, random: nat)
    requires random <= hi - lo
    ensures StartOf(lo, hi, random) == lo + random
  {
    DivModUnique(random, hi - lo + 1, 0, random);
  }

  // ---- allocations only ---------------------------------------------------------------------

  function Allocs(randoms: seq<Word>): seq<Call> {
    seq(|randoms|, i requires 0 <= i < |randoms| => Alloc(randoms[i]))
  }

  function Min(a: int, b: int): int {
    if a <= b then a else b
  }

  /** Each allocation takes one more address until all are in use. */
  lemma {:induction false} AllocsFill(lo: nat, hi: nat, randoms: seq<Word>, k: nat)
    requires lo <= hi && k <= |randoms|
    ensures var used := After(lo, hi, Allocs(randoms)[..k]);
            |used| == 1 + Min(k, hi - lo) && lo in used && forall u <- used :: lo <= u <= hi
    decreases k
  {
    var calls := Allocs(randoms);
    if k == 0 {
      assert calls[..0] == [];
    } else {
      AllocsFill(lo, hi, randoms, k - 1);
      NextAlloc(lo, hi, randoms, k - 1);
      OneMore(After(lo, hi, calls[..k - 1]), lo, hi, randoms[k - 1]);
    }
  }

  lemma OneMore(used: set<nat>, lo: nat, hi: nat, random: Word)
    requires lo <= hi && forall u <- used :: lo <= u <= hi
    ensures var (after, _) := Answer(used, lo, hi, Alloc(random));
            |after| == Min(|used| + 1, hi - lo + 1) && used <= after && forall u <- after :: lo <= u <= hi
  {
    FirstFreeIff(used, lo, hi, random);
    RangeSize(used, lo, hi);
    var found := FirstFree(used, lo, hi, random);
    if found.Some? { assert |used + {found.value}| == |used| + 1; }
  }

  lemma AllocSucceedsIff(lo: nat, hi: nat, randoms: seq<Word>, k: nat)
    requires lo <= hi && k < |randoms|
    ensures ReplyAt(lo, hi, Allocs(randoms), k).Granted? <==> k < hi - lo
  {
    var used := After(lo, hi, Allocs(randoms)[..k]);
    AllocsFill(lo, hi, randoms, k);
    FirstFreeIff(used, lo, hi, randoms[k]);
    RangeSize(used, lo, hi);
  }

  /** What is allocated stays in use while nothing is released. */
  lemma {:induction false} AllocsStay(lo: nat, hi: nat, randoms: seq<Word>, j: nat, k: nat)
    requires lo <= hi && j < k <= |randoms|
    ensures var r := ReplyAt(lo, hi, Allocs(randoms), j); r.Granted? ==> r.a in After(lo, hi, Allocs(randoms)[..k])
    decreases k
  {
    NextAlloc(lo, hi, randoms, k - 1);
    if j < k - 1 {
      AllocsStay(lo, hi, randoms, j, k - 1);
    }
  }

  lemma AllocsDistinct(lo: nat, hi: nat, randoms: seq<Word>, j: nat, k: nat)
    requires lo <= hi && j < k < |randoms|
    ensures var r, q := ReplyAt(lo, hi, Allocs(randoms), j), ReplyAt(lo, hi, Allocs(randoms), k);
            r.Granted? && q.Granted? ==> r.a != q.a
  {
    AllocsStay(lo, hi, randoms, j, k);
    FirstFreeIff(After(lo, hi, Allocs(randoms)[..k]), lo, hi, randoms[k]);
  }

  /** A fresh pool on a /n, n <= 30, asked again and again: for every sequence of random numbers the first
      2^(32-n)-3 allocations succeed, with pairwise different addresses, and all later ones fail. */
  method Populate(s: Subnet, randoms: seq<Word>) returns (results: seq<Result<Quad>>)
    requires Canonical(s) && s.ones <= 30
    ensures |results| == |randoms|
    ensures forall k :: 0 <= k < |results| ==> (results[k].Ok? <==> k < Pow2(32 - s.ones) - 3)
    ensures forall k :: 0 <= k < |results| && results[k].Err? ==> results[k].error == NoSpace
    ensures forall k :: 0 <= k < |results| && results[k].Ok? ==>
              Base(s) + 1 < Number(results[k].value) < Base(s) + Pow2(32 - s.ones) - 1
    ensures forall j, k :: 0 <= j < k < |results| && results[j].Ok? && results[k].Ok? ==>
              results[j].value != results[k].value
  {
    var pool := BlockPool(s, Base(s), Pow2(32 - s.ones));
    results := AllocEach(pool, randoms);
    PopulateIn(Base(s), Pow2(32 - s.ones), randoms, results);
  }

  method BlockPool(s: Subnet, ghost base: nat, ghost size: nat) returns (pool: Pool)
    requires Canonical(s) && s.ones <= 30 && base == Base(s) && size == Pow2(32 - s.ones)
    ensures fresh(pool) && pool.Valid() && pool.running && pool.used.Keys == {pool.min}
    ensures size >= 4 && pool.min == base + 1 && pool.max == base + size - 2
  {
    BlockOfFour(s.ones, size);
    var made := Pool.FromSubnet(true, s);
    pool := made.value;
  }

  lemma BlockOfFour(ones: nat, size: nat)
    requires ones <= 30 && size == Pow2(32 - ones)
    ensures size >= 4 && Block(ones) == size
  {
    Pow2Monotone(2, 32 - ones);
  }

  lemma PopulateIn(base: nat, size: nat, randoms: seq<Word>, results: seq<Result<Quad>>)
    requires size >= 4 && |results| == |randoms|
    requires forall k :: 0 <= k < |results| ==>
               ReplyOf(results[k]) == ReplyAt(base + 1, base + size - 2, Allocs(randoms), k)
    ensures forall k :: 0 <= k < |results| ==> (results[k].Ok? <==> k < size - 3)
    ensures forall k :: 0 <= k < |results| && results[k].Err? ==> results[k].error == NoSpace
    ensures forall k :: 0 <= k < |results| && results[k].Ok? ==>
              base + 1 < Number(results[k].value) < base + size - 1
    ensures forall j, k :: 0 <= j < k < |results| && results[j].Ok? && results[k].Ok? ==>
              results[j].value != results[k].value
  {
    PopulateMeans(base + 1, base + size - 2, randoms, results);
  }

  method AllocEach(pool: Pool, randoms: seq<Word>) returns (results: seq<Result<Quad>>)
    requires pool.Valid() && pool.running && pool.used.Keys == {pool.min}
    modifies pool`used
    ensures |results| == |randoms|
    ensures forall k :: 0 <= k < |results| ==> ReplyOf(results[k]) == ReplyAt(pool.min, pool.max, Allocs(randoms), k)
  {
    ghost var lo, hi, calls := pool.min, pool.max, Allocs(randoms);
    assert calls[..0] == [];
    results := [];
    for i := 0 to |randoms|
      invariant |results| == i && pool.Valid() && pool.used.Keys == After(lo, hi, calls[..i])
      invariant forall k :: 0 <= k < i ==> ReplyOf(results[k]) == ReplyAt(lo, hi, calls, k)
    {
      NextAlloc(lo, hi, randoms, i);
      var r := pool.Alloc(randoms[i]);
      results := results + [r];
    }
  }

  lemma NextAlloc(lo: nat, hi: nat, randoms: seq<Word>, i: nat)
    requires lo <= hi && i < |randoms|
    ensures var used, calls := After(lo, hi, Allocs(randoms)[..i]), Allocs(randoms);
            && After(lo, hi, calls[..i + 1]) == Answer(used, lo, hi, Alloc(randoms[i])).0
            && ReplyAt(lo, hi, calls, i) == Answer(used, lo, hi, Alloc(randoms[i])).1
  {
    var calls := Allocs(randoms);
    assert calls[..i + 1][..i] == calls[..i] && calls[..i + 1][i] == Alloc(randoms[i]);
  }

  lemma PopulateMeans(lo: nat, hi: nat, randoms: seq<Word>, results: seq<Result<Quad>>)
    requires lo <= hi && |results| == |randoms|
    requires forall k :: 0 <= k < |results| ==> ReplyOf(results[k]) == ReplyAt(lo, hi, Allocs(randoms), k)
    ensures forall k :: 0 <= k < |results| ==> (results[k].Ok? <==> k < hi - lo)
    ensures forall k :: 0 <= k < |results| && results[k].Err? ==> results[k].error == NoSpace
    ensures forall k :: 0 <= k < |results| && results[k].Ok? ==> lo < Number(results[k].value) <= hi
    ensures forall j, k :: 0 <= j < k < |results| && results[j].Ok? && results[k].Ok? ==>
              Number(results[j].value) != Number(results[k].value)
  {
    forall k | 0 <= k < |results|
      ensures (results[k].Ok? <==> k < hi - lo) && (results[k].Err? ==> results[k].error == NoSpace)
      ensures results[k].Ok? ==> lo < Number(results[k].value) <= hi
    {
      AllocSucceedsIff(lo, hi, randoms, k);
      AllocsFill(lo, hi, randoms, k);
      FirstFreeIff(After(lo, hi, Allocs(randoms)[..k]), lo, hi, randoms[k]);
    }
    forall j, k | 0 <= j < k < |results| && results[j].Ok? && results[k].Ok?
      ensures Number(results[j].value) != Number(results[k].value)
    {
      AllocsDistinct(lo, hi, randoms, j, k);
    }
  }
}
