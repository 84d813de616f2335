/**
  The chunked allocator on ROCm: creating and mapping the chunks of an allocation with
  roll-back, and unmapping and releasing them while the address range stays reserved.

  The driver is a value with the live handles, the mappings and the reservations.  Every
  call is logged with its status.  A call fails when it is illegal, or when the oracle
  `faults` says so for the position of the call in the log.
 */
module ChunkedAllocator {
  import opened Basics
  import opened ChunkTiling

  type Handle = nat
  type Status = int

  const NO_ERROR: Status := 0
  const ERROR_INVALID: Status := 1

  datatype Call =
    | GetContext
    | GetGranularity
    | Create(size: int)
    | Map(addr: int, size: int, handle: Handle)
    | Unmap(addr: int, size: int)
    | Release(handle: Handle)
    | SetAccess(addr: int, size: int)
    | AddressFree(addr: int, size: int)
    | AddressReserve(size: int, hint: int)

  datatype Entry = Entry(call: Call, status: Status)

  /** What is mapped at an address, and whether the device may access it. */
  datatype Mapping = Mapping(size: int, handle: Handle, access: bool)

  datatype Driver = Driver(
    log: seq<Entry>,
    next: Handle,
    live: set<Handle>,
    mapped: map<int, Mapping>,
    reserved: map<int, int>)
  {
    predicate CanMap(addr: int, size: int, handle: Handle) {
      && handle in live
      && size > 0
      && addr !in mapped
      && (forall a :: a in mapped ==> a + mapped[a].size <= addr || addr + size <= a)
      && IsReserved(addr, size)
    }

    predicate CanUnmap(addr: int, size: int) {
      addr in mapped && mapped[addr].size == size
    }

    predicate CanFree(addr: int, size: int) {
      && addr in reserved && reserved[addr] == size
      && (forall a :: a in mapped ==> a + mapped[a].size <= addr || addr + size <= a)
    }

    /** The range meets no reservation. */
    predicate IsUnreserved(addr: int, size: int) {
      addr !in reserved && forall r :: r in reserved ==> r + reserved[r] <= addr || addr + size <= r
    }

    function Logged(call: Call, status: Status): Driver {
      this.(log := log + [Entry(call, status)])
    }

    /** Handles are numbered in the order of their creation, reservations never overlap,
        mappings never overlap, and every mapping lies in a reservation. */
    ghost predicate Valid() {
      && (forall h :: h in live ==> h < next)
      && (forall a {:trigger MappingIsFine(a)} :: a in mapped ==> MappingIsFine(a))
      && (forall a, b {:trigger MappingsAreApart(a, b)} :: a in mapped && b in mapped ==> MappingsAreApart(a, b))
      && (forall r {:trigger ReservationIsFine(r)} :: r in reserved ==> ReservationIsFine(r))
      && (forall r, q {:trigger ReservationsAreApart(r, q)} ::
            r in reserved && q in reserved ==> ReservationsAreApart(r, q))
    }

    ghost predicate MappingIsFine(a: int)
      requires a in mapped
    {
      mapped[a].size > 0 && IsReserved(a, mapped[a].size)
    }

    ghost predicate MappingsAreApart(a: int, b: int)
      requires a in mapped && b in mapped
    {
      a < b ==> a + mapped[a].size <= b
    }

    ghost predicate ReservationIsFine(r: int)
      requires r in reserved
    {
      reserved[r] >= 0
    }

    ghost predicate ReservationsAreApart(r: int, q: int)
      requires r in reserved && q in reserved
    {
      r < q ==> r + reserved[r] <= q
    }

    /** The device may access the address: it is mapped, and access is set for its mapping. */
    ghost predicate IsAccessible(a: int) {
      exists b :: b in mapped && b <= a < b + mapped[b].size && mapped[b].access
    }

    /** Some reservation holds the range. */
    predicate IsReserved(addr: int, size: int) {
      exists r :: r in reserved && r <= addr && addr + size <= r + reserved[r]
    }

    /** The whole range, unless it is empty, is reserved and nothing is mapped in it. */
    ghost predicate IsFree(addr: int, size: int) {
      size > 0 ==>
      && IsReserved(addr, size)
      && (forall a :: a in mapped ==> a + mapped[a].size <= addr || addr + size <= a)
    }
  }

  lemma MappingKeepsValid(d: Driver, addr: int, size: int, handle: Handle)
    requires d.Valid() && d.CanMap(addr, size, handle)
    ensures d.(mapped := d.mapped[addr := Mapping(size, handle, false)]).Valid()
  {
    var d' := d.(mapped := d.mapped[addr := Mapping(size, handle, false)]);
    SameReservations(d, d');
    forall a | a in d'.mapped ensures d'.MappingIsFine(a) {
      assert a in d.mapped ==> d.MappingIsFine(a);
      assert d.IsReserved(a, d'.mapped[a].size);
    }
    forall a, b | a in d'.mapped && b in d'.mapped ensures d'.MappingsAreApart(a, b) {
      if a in d.mapped && b in d.mapped {
        assert d.MappingsAreApart(a, b);
      }
    }
  }

  lemma SameReservations(d: Driver, d': Driver)
    requires d.Valid() && d'.reserved == d.reserved
    ensures forall r {:trigger d'.ReservationIsFine(r)} :: r in d'.reserved ==> d'.ReservationIsFine(r)
    ensures forall r, q {:trigger d'.ReservationsAreApart(r, q)} ::
              r in d'.reserved && q in d'.reserved ==> d'.ReservationsAreApart(r, q)
    ensures forall a, size :: d.IsReserved(a, size) <==> d'.IsReserved(a, size)
  {
    forall r | r in d'.reserved ensures d'.ReservationIsFine(r) {
      assert d.ReservationIsFine(r);
    }
    forall r, q | r in d'.reserved && q in d'.reserved ensures d'.ReservationsAreApart(r, q) {
      assert d.ReservationsAreApart(r, q);
    }
  }

  /** Giving up mappings and handles keeps the driver valid, and so does any log. */
  lemma ShrinkingKeepsValid(d: Driver, d': Driver)
    requires d.Valid() && d'.next >= d.next && d'.reserved == d.reserved && (forall h :: h in d'.live ==> h < d'.next)
    requires forall a :: a in d'.mapped ==> a in d.mapped && d'.mapped[a] == d.mapped[a]
    ensures d'.Valid()
  {
    SameReservations(d, d');
    forall a | a in d'.mapped ensures d'.MappingIsFine(a) {
      assert d.MappingIsFine(a);
    }
    forall a, b | a in d'.mapped && b in d'.mapped ensures d'.MappingsAreApart(a, b) {
      assert d.MappingsAreApart(a, b);
    }
  }

  /** A free reservation can be given up, and its range is unreserved then. */
  lemma FreeingKeepsValid(d: Driver, addr: int, size: int)
    requires d.Valid() && d.CanFree(addr, size)
    ensures
      var d' := d.(reserved := d.reserved - {addr});
      d'.Valid() && d'.IsUnreserved(addr, size)
    ensures size >= 0
  {
    var d' := d.(reserved := d.reserved - {addr});
    assert d.ReservationIsFine(addr);
    forall a | a in d'.mapped ensures d'.MappingIsFine(a) {
      assert d.MappingIsFine(a);
      var r :| r in d.reserved && r <= a && a + d.mapped[a].size <= r + d.reserved[r];
      assert r != addr && d'.reserved[r] == d.reserved[r];
    }
    forall a, b | a in d'.mapped && b in d'.mapped ensures d'.MappingsAreApart(a, b) {
      assert d.MappingsAreApart(a, b);
    }
    forall r | r in d'.reserved
      ensures d'.ReservationIsFine(r) && (r + d'.reserved[r] <= addr || addr + size <= r)
    {
      assert d.ReservationIsFine(r) && d.ReservationsAreApart(r, addr) && d.ReservationsAreApart(addr, r);
    }
    forall r, q | r in d'.reserved && q in d'.reserved ensures d'.ReservationsAreApart(r, q) {
      assert d.ReservationsAreApart(r, q);
    }
  }

  /** Nothing is mapped in an unreserved range, so it can be freed again once reserved. */
  lemma ReservingKeepsValid(d: Driver, addr: int, size: int)
    requires d.Valid() && d.IsUnreserved(addr, size) && size >= 0
    ensures
      var d' := d.(reserved := d.reserved[addr := size]);
      d'.Valid() && d'.CanFree(addr, size)
  {
    var d' := d.(reserved := d.reserved[addr := size]);
    forall a | a in d.mapped
      ensures d'.MappingIsFine(a) && (a + d.mapped[a].size <= addr || addr + size <= a)
    {
      assert d.MappingIsFine(a);
      var r :| r in d.reserved && r <= a && a + d.mapped[a].size <= r + d.reserved[r];
      assert d'.reserved[r] == d.reserved[r];
    }
    forall a, b | a in d'.mapped && b in d'.mapped ensures d'.MappingsAreApart(a, b) {
      assert d.MappingsAreApart(a, b);
    }
    forall r | r in d'.reserved ensures d'.ReservationIsFine(r) {
      assert r in d.reserved ==> d.ReservationIsFine(r);
    }
    forall r, q | r in d'.reserved && q in d'.reserved ensures d'.ReservationsAreApart(r, q) {
      if r in d.reserved && q in d.reserved {
        assert d.ReservationsAreApart(r, q);
      } else if r in d.reserved && r != addr {
        assert d.ReservationIsFine(r);
      }
    }
  }

  type ValidDriver = d: Driver | d.Valid() witness Driver([], 0, {}, map[], map[])

  function Log(d: ValidDriver, call: Call, status: Status): (r: ValidDriver)
    ensures r == d.Logged(call, status)
  {
    ShrinkingKeepsValid(d, d.Logged(call, status));
    d.Logged(call, status)
  }

  function WithHandle(d: ValidDriver): (r: ValidDriver)
    ensures r == d.(live := d.live + {d.next}, next := d.next + 1)
  {
    ShrinkingKeepsValid(d, d.(live := d.live + {d.next}, next := d.next + 1));
    d.(live := d.live + {d.next}, next := d.next + 1)
  }

  function WithoutHandle(d: ValidDriver, h: Handle): (r: ValidDriver)
    ensures r == d.(live := d.live - {h})
  {
    ShrinkingKeepsValid(d, d.(live := d.live - {h}));
    d.(live := d.live - {h})
  }

  function WithMapping(d: ValidDriver, addr: int, size: int, handle: Handle): (r: ValidDriver)
    requires d.CanMap(addr, size, handle)
    ensures r == d.(mapped := d.mapped[addr := Mapping(size, handle, false)])
  {
    MappingKeepsValid(d, addr, size, handle);
    d.(mapped := d.mapped[addr := Mapping(size, handle, false)])
  }

  function WithoutMapping(d: ValidDriver, addr: int): (r: ValidDriver)
    ensures r == d.(mapped := d.mapped - {addr})
  {
    ShrinkingKeepsValid(d, d.(mapped := d.mapped - {addr}));
    d.(mapped := d.mapped - {addr})
  }

  /** Access set for the mappings that lie within a range. */
  function Allow(m: map<int, Mapping>, addr: int, size: int): (r: map<int, Mapping>)
    ensures r.Keys == m.Keys
    ensures forall a :: a in m ==>
              r[a] == if addr <= a && a + m[a].size <= addr + size then m[a].(access := true) else m[a]
  {
    map a | a in m :: if addr <= a && a + m[a].size <= addr + size then m[a].(access := true) else m[a]
  }

  lemma AllowingKeepsValid(d: Driver, d': Driver, addr: int, size: int)
    requires d.Valid() && d' == d.(mapped := Allow(d.mapped, addr, size))
    ensures d'.Valid()
  {
    SameReservations(d, d');
    forall a | a in d'.mapped ensures d'.MappingIsFine(a) {
      assert d.MappingIsFine(a);
      assert d.IsReserved(a, d'.mapped[a].size);
    }
    forall a, b | a in d'.mapped && b in d'.mapped ensures d'.MappingsAreApart(a, b) {
      assert d.MappingsAreApart(a, b);
    }
  }

  function WithAccess(d: ValidDriver, addr: int, size: int): (r: ValidDriver)
    ensures r == d.(mapped := Allow(d.mapped, addr, size))
  {
    AllowingKeepsValid(d, d.(mapped := Allow(d.mapped, addr, size)), addr, size);
    d.(mapped := Allow(d.mapped, addr, size))
  }

  function WithReservation(d: ValidDriver, addr: int, size: int): (r: ValidDriver)
    requires d.IsUnreserved(addr, size) && size >= 0
    ensures r == d.(reserved := d.reserved[addr := size]) && r.CanFree(addr, size)
  {
    ReservingKeepsValid(d, addr, size);
    d.(reserved := d.reserved[addr := size])
  }

  function WithoutReservation(d: ValidDriver, addr: int, size: int): (r: ValidDriver)
    requires d.CanFree(addr, size)
    ensures r == d.(reserved := d.reserved - {addr}) && r.IsUnreserved(addr, size) && size >= 0
  {
    FreeingKeepsValid(d, addr, size);
    d.(reserved := d.reserved - {addr})
  }

  /** The mappings of the first n chunks. */
  function Tile(base: int, chunks: seq<int>, handles: seq<Handle>, n: nat): map<int, Mapping>
    requires n <= |chunks| && n <= |handles|
  {
    if n == 0 then map[]
    else Tile(base, chunks, handles, n - 1)[Start(base, chunks, n - 1) := Mapping(chunks[n - 1], handles[n - 1], false)]
  }

  /** The addresses of the chunks that were unmapped, by the statuses of the calls. */
  function Unmapped(base: int, chunks: seq<int>, statuses: seq<Status>): set<int>
    requires |statuses| <= |chunks|
  {
    if statuses == [] then {}
    else
      var n := |statuses| - 1;
      Unmapped(base, chunks, statuses[..n]) + if statuses[n] == NO_ERROR then {Start(base, chunks, n)} else {}
  }

  /** The handles that were released, by the statuses of the calls. */
  function Released(handles: seq<Handle>, statuses: seq<Status>): set<Handle>
    requires |statuses| <= |handles|
  {
    if statuses == [] then {}
    else
      var n := |statuses| - 1;
      Released(handles, statuses[..n]) + if statuses[n] == NO_ERROR then {handles[n]} else {}
  }

  function UnmapLog(base: int, chunks: seq<int>, statuses: seq<Status>): (log: seq<Entry>)
    requires |statuses| <= |chunks|
    ensures |log| == |statuses|
  {
    if statuses == [] then []
    else
      var n := |statuses| - 1;
      UnmapLog(base, chunks, statuses[..n]) + [Entry(Unmap(Start(base, chunks, n), chunks[n]), statuses[n])]
  }

  function ReleaseLog(handles: seq<Handle>, statuses: seq<Status>): (log: seq<Entry>)
    requires |statuses| <= |handles|
    ensures |log| == |statuses|
  {
    if statuses == [] then []
    else
      var n := |statuses| - 1;
      ReleaseLog(handles, statuses[..n]) + [Entry(Release(handles[n]), statuses[n])]
  }

  /** The driver after unmapping the first chunks, by the statuses of the calls. */
  function AfterUnmaps(d: Driver, base: int, chunks: seq<int>, statuses: seq<Status>): Driver
    requires |statuses| <= |chunks|
  {
    d.(log := d.log + UnmapLog(base, chunks, statuses), mapped := d.mapped - Unmapped(base, chunks, statuses))
  }

  /** The driver after releasing the first handles, by the statuses of the calls. */
  function AfterReleases(d: Driver, handles: seq<Handle>, statuses: seq<Status>): Driver
    requires |statuses| <= |handles|
  {
    d.(log := d.log + ReleaseLog(handles, statuses), live := d.live - Released(handles, statuses))
  }

  lemma UnmapOneMore(d: Driver, d1: Driver, base: int, chunks: seq<int>, statuses: seq<Status>, status: Status)
    requires |statuses| < |chunks| && d1 == AfterUnmaps(d, base, chunks, statuses)
    ensures
      var addr, size := Start(base, chunks, |statuses|), chunks[|statuses|];
      AfterUnmaps(d, base, chunks, statuses + [status]) ==
        d1.Logged(Unmap(addr, size), status).(mapped := if status == NO_ERROR then d1.mapped - {addr} else d1.mapped)
  {
    var addr, size := Start(base, chunks, |statuses|), chunks[|statuses|];
    UnmapLogOneMore(base, chunks, statuses, status);
    var d2 := AfterUnmaps(d, base, chunks, statuses + [status]);
    assert d2.mapped == if status == NO_ERROR then d1.mapped - {addr} else d1.mapped by {
      WithoutAlso(d.mapped, Unmapped(base, chunks, statuses), addr, status == NO_ERROR);
    }
    assert d2.log == d1.log + [Entry(Unmap(addr, size), status)] by {
      Regroup(d.log, UnmapLog(base, chunks, statuses), [Entry(Unmap(addr, size), status)]);
    }
  }

  lemma WithoutAlso(m: map<int, Mapping>, s: set<int>, x: int, also: bool)
    ensures m - (s + if also then {x} else {}) == if also then m - s - {x} else m - s
  {
    if !also {
      assert s + {} == s;
    }
  }

  lemma UnmapLogOneMore(base: int, chunks: seq<int>, statuses: seq<Status>, status: Status)
    requires |statuses| < |chunks|
    ensures
      var addr, size := Start(base, chunks, |statuses|), chunks[|statuses|];
      && UnmapLog(base, chunks, statuses + [status]) == UnmapLog(base, chunks, statuses) + [Entry(Unmap(addr, size), status)]
      && Unmapped(base, chunks, statuses + [status]) ==
           Unmapped(base, chunks, statuses) + if status == NO_ERROR then {addr} else {}
  {
    assert (statuses + [status])[..|statuses|] == statuses;
  }

  lemma ReleaseOneMore(d: Driver, d1: Driver, handles: seq<Handle>, statuses: seq<Status>, status: Status)
    requires |statuses| < |handles| && d1 == AfterReleases(d, handles, statuses)
    ensures
      var h := handles[|statuses|];
      AfterReleases(d, handles, statuses + [status]) ==
        d1.Logged(Release(h), status).(live := if status == NO_ERROR then d1.live - {h} else d1.live)
  {
    assert (statuses + [status])[..|statuses|] == statuses;
  }

  lemma FirstErrorOneMore(first: Status, statuses: seq<Status>, status: Status)
    ensures FirstError(first, statuses + [status]) ==
              if FirstError(first, statuses) != NO_ERROR then FirstError(first, statuses) else status
  {
    assert (statuses + [status])[..|statuses|] == statuses;
  }

  /** The calls that create the first n chunks. */
  function CreateLog(chunks: seq<int>, n: nat): (log: seq<Entry>)
    requires n <= |chunks|
    ensures |log| == n
  {
    if n == 0 then [] else CreateLog(chunks, n - 1) + [Entry(Create(chunks[n - 1]), NO_ERROR)]
  }

  /** The calls that map the first n chunks. */
  function MapLog(base: int, chunks: seq<int>, handles: seq<Handle>, n: nat): (log: seq<Entry>)
    requires n <= |chunks| == |handles|
    ensures |log| == n
  {
    if n == 0 then []
    else
      MapLog(base, chunks, handles, n - 1)
      + [Entry(Map(Start(base, chunks, n - 1), chunks[n - 1], handles[n - 1]), NO_ERROR)]
  }

  /** The first error, when `first` is what was seen before. */
  function FirstError(first: Status, statuses: seq<Status>): Status {
    if statuses == [] then first
    else
      var before := FirstError(first, statuses[..|statuses| - 1]);
      if before != NO_ERROR then before else statuses[|statuses| - 1]
  }

  ghost predicate AllSucceeded(statuses: seq<Status>) {
    forall i :: 0 <= i < |statuses| ==> statuses[i] == NO_ERROR
  }

  lemma SucceededBoth(a: seq<Status>, b: seq<Status>)
    ensures AllSucceeded(a + b) <==> AllSucceeded(a) && AllSucceeded(b)
  {
    if AllSucceeded(a + b) {
      assert forall i :: 0 <= i < |a| ==> a[i] == (a + b)[i];
      assert forall i :: 0 <= i < |b| ==> b[i] == (a + b)[|a| + i];
    }
  }

  /** It is the status of the first call that failed. */
  lemma {:induction false} FirstErrorIsFirst(statuses: seq<Status>)
    ensures FirstError(NO_ERROR, statuses) == NO_ERROR <==> AllSucceeded(statuses)
    ensures FirstError(NO_ERROR, statuses) != NO_ERROR ==>
              exists i :: 0 <= i < |statuses| && statuses[i] == FirstError(NO_ERROR, statuses) && AllSucceeded(statuses[..i])
  {
    if statuses != [] {
      var n := |statuses| - 1;
      var init := statuses[..n];
      FirstErrorIsFirst(init);
      if FirstError(NO_ERROR, init) != NO_ERROR {
        var i :| 0 <= i < n && init[i] == FirstError(NO_ERROR, init) && AllSucceeded(init[..i]);
        assert init[..i] == statuses[..i];
      } else if statuses[n] != NO_ERROR {
        assert AllSucceeded(statuses[..n]);
      }
    }
  }

  lemma {:induction false} FirstErrorSplits(first: Status, a: seq<Status>, b: seq<Status>)
    ensures FirstError(FirstError(first, a), b) == FirstError(first, a + b)
  {
    if b == [] {
      assert a + b == a;
    } else {
      var n := |b| - 1;
      FirstErrorSplits(first, a, b[..n]);
      assert (a + b)[..|a| + n] == a + b[..n];
    }
  }

  /** The handles at the front of a sequence. */
  function Front(handles: seq<Handle>, n: nat): set<Handle>
    requires n <= |handles|
  {
    set h | h in handles[..n]
  }

  lemma {:induction false} AllReleased(handles: seq<Handle>, statuses: seq<Status>)
    requires |statuses| <= |handles| && AllSucceeded(statuses)
    ensures Released(handles, statuses) == Front(handles, |statuses|)
  {
    if statuses != [] {
      var n := |statuses| - 1;
      AllReleased(handles, statuses[..n]);
      assert handles[..n + 1] == handles[..n] + [handles[n]];
    }
  }

  lemma {:induction false} AllUnmapped(base: int, chunks: seq<int>, handles: seq<Handle>, statuses: seq<Status>)
    requires |statuses| <= |chunks| && |statuses| <= |handles| && AllSucceeded(statuses)
    ensures Unmapped(base, chunks, statuses) == Tile(base, chunks, handles, |statuses|).Keys
  {
    if statuses != [] {
      AllUnmapped(base, chunks, handles, statuses[..|statuses| - 1]);
    }
  }

  lemma {:induction false} KeysOfTile(base: int, chunks: seq<int>, handles: seq<Handle>, n: nat, a: int)
    requires n <= |chunks| && n <= |handles|
    ensures a in Tile(base, chunks, handles, n) <==> exists j :: 0 <= j < n && Start(base, chunks, j) == a
  {
    if n > 0 {
      KeysOfTile(base, chunks, handles, n - 1, a);
      assert Start(base, chunks, n - 1) == a ==> exists j :: 0 <= j < n && Start(base, chunks, j) == a;
    }
  }

  ghost predicate AreDistinct(handles: seq<Handle>) {
    forall i, j :: 0 <= i < j < |handles| ==> handles[i] != handles[j]
  }

  lemma {:induction false} NotReleasedYet(handles: seq<Handle>, statuses: seq<Status>, j: nat)
    requires |statuses| <= j < |handles| && AreDistinct(handles[..j + 1])
    ensures handles[j] !in Released(handles, statuses)
  {
    if statuses != [] {
      var n := |statuses| - 1;
      NotReleasedYet(handles, statuses[..n], j);
      assert handles[..j + 1][n] == handles[n] && handles[..j + 1][j] == handles[j];
    }
  }

  lemma StillLive(live: set<Handle>, handles: seq<Handle>, n: nat, statuses: seq<Status>, j: nat)
    requires |statuses| <= j < n <= |handles| && AreLive(live, handles[..n])
    ensures handles[j] in live - Released(handles, statuses)
  {
    assert handles[..n][j] == handles[j];
    assert handles[..j + 1] == handles[..n][..j + 1];
    NotReleasedYet(handles, statuses, j);
  }

  /** A handle whose release failed is still live. */
  lemma {:induction false} NotReleased(handles: seq<Handle>, statuses: seq<Status>, j: nat)
    requires j < |statuses| <= |handles| && AreDistinct(handles[..|statuses|]) && statuses[j] != NO_ERROR
    ensures handles[j] !in Released(handles, statuses)
  {
    var n := |statuses| - 1;
    if j < n {
      assert handles[..n] == handles[..n + 1][..n];
      NotReleased(handles, statuses[..n], j);
      assert handles[..n + 1][n] == handles[n] && handles[..n + 1][j] == handles[j];
    } else {
      NotReleasedYet(handles, statuses[..n], j);
    }
  }

  lemma {:induction false} NotUnmappedYet(base: int, chunks: seq<int>, statuses: seq<Status>, j: nat)
    requires |statuses| <= j < |chunks| && Positive(chunks)
    ensures Start(base, chunks, j) !in Unmapped(base, chunks, statuses)
  {
    if statuses != [] {
      var n := |statuses| - 1;
      NotUnmappedYet(base, chunks, statuses[..n], j);
      StartsAscend(base, chunks, n, j);
    }
  }

  /** A chunk whose unmap failed is still mapped. */
  lemma {:induction false} NotUnmapped(base: int, chunks: seq<int>, statuses: seq<Status>, j: nat)
    requires j < |statuses| <= |chunks| && Positive(chunks) && statuses[j] != NO_ERROR
    ensures Start(base, chunks, j) !in Unmapped(base, chunks, statuses)
  {
    var n := |statuses| - 1;
    if j < n {
      NotUnmapped(base, chunks, statuses[..n], j);
      StartsAscend(base, chunks, j, n);
    } else {
      NotUnmappedYet(base, chunks, statuses[..n], j);
    }
  }

  /** Releasing the handles that were created gives the live handles of before exactly when
      every release succeeds. */
  lemma HandlesUndone(live: set<Handle>, handles: seq<Handle>, statuses: seq<Status>)
    requires |statuses| <= |handles| && AreDistinct(handles[..|statuses|])
    requires forall j :: 0 <= j < |statuses| ==> handles[j] !in live
    ensures (live + Front(handles, |statuses|)) - Released(handles, statuses) == live <==> AllSucceeded(statuses)
  {
    if AllSucceeded(statuses) {
      AllReleased(handles, statuses);
    } else {
      var j :| 0 <= j < |statuses| && statuses[j] != NO_ERROR;
      NotReleased(handles, statuses, j);
      assert handles[j] in handles[..|statuses|];
    }
  }

  /** Chunk j is mapped at its address. */
  ghost predicate IsMapped(m: map<int, Mapping>, base: int, chunks: seq<int>, j: nat)
    requires j < |chunks|
  {
    Start(base, chunks, j) in m && m[Start(base, chunks, j)].size == chunks[j]
  }

  ghost predicate AreMapped(m: map<int, Mapping>, base: int, chunks: seq<int>, n: nat)
    requires n <= |chunks|
  {
    Positive(chunks) && forall j :: 0 <= j < n ==> IsMapped(m, base, chunks, j)
  }

  ghost predicate AreLive(live: set<Handle>, handles: seq<Handle>) {
    AreDistinct(handles) && forall j :: 0 <= j < |handles| ==> handles[j] in live
  }

  /** Nothing is mapped where chunk j begins. */
  ghost predicate IsVacant(m: map<int, Mapping>, base: int, chunks: seq<int>, j: nat)
    requires j < |chunks|
  {
    Start(base, chunks, j) !in m
  }

  /** Unmapping the chunks that were mapped gives the mappings of before exactly when every
      unmap succeeds. */
  lemma TileUndone(m: map<int, Mapping>, base: int, chunks: seq<int>, handles: seq<Handle>, statuses: seq<Status>)
    requires |statuses| <= |chunks| && |statuses| <= |handles| && Positive(chunks)
    requires forall j :: 0 <= j < |statuses| ==> IsVacant(m, base, chunks, j)
    ensures (m + Tile(base, chunks, handles, |statuses|)) - Unmapped(base, chunks, statuses) == m <==> AllSucceeded(statuses)
  {
    if AllSucceeded(statuses) {
      TileAllUndone(m, base, chunks, handles, statuses);
    } else {
      var j :| 0 <= j < |statuses| && statuses[j] != NO_ERROR;
      NotUnmapped(base, chunks, statuses, j);
      TileAt(base, chunks, handles, |statuses|, j);
      assert IsVacant(m, base, chunks, j);
    }
  }

  lemma TileAllUndone(m: map<int, Mapping>, base: int, chunks: seq<int>, handles: seq<Handle>, statuses: seq<Status>)
    requires |statuses| <= |chunks| && |statuses| <= |handles| && AllSucceeded(statuses)
    requires forall j :: 0 <= j < |statuses| ==> IsVacant(m, base, chunks, j)
    ensures (m + Tile(base, chunks, handles, |statuses|)) - Unmapped(base, chunks, statuses) == m
  {
    AllUnmapped(base, chunks, handles, statuses);
    forall a | a in Tile(base, chunks, handles, |statuses|) ensures a !in m {
      KeysOfTile(base, chunks, handles, |statuses|, a);
      var j :| 0 <= j < |statuses| && Start(base, chunks, j) == a;
      assert IsVacant(m, base, chunks, j);
    }
  }

  lemma TileStep(m: map<int, Mapping>, base: int, chunks: seq<int>, handles: seq<Handle>, i: nat)
    requires i < |chunks| && i < |handles|
    ensures (m + Tile(base, chunks, handles, i))[Start(base, chunks, i) := Mapping(chunks[i], handles[i], false)] ==
              m + Tile(base, chunks, handles, i + 1)
  {
  }

  lemma {:induction false} TileAt(base: int, chunks: seq<int>, handles: seq<Handle>, n: nat, j: nat)
    requires Positive(chunks) && j < n <= |chunks| && n <= |handles|
    ensures
      var tile := Tile(base, chunks, handles, n);
      Start(base, chunks, j) in tile && tile[Start(base, chunks, j)] == Mapping(chunks[j], handles[j], false)
  {
    if j < n - 1 {
      TileAt(base, chunks, handles, n - 1, j);
      StartsAscend(base, chunks, j, n - 1);
    }
  }

  /** The driver with the first n chunks mapped. */
  function WithTile(d: Driver, base: int, chunks: seq<int>, handles: seq<Handle>, n: nat): Driver
    requires n <= |chunks| && n <= |handles|
  {
    d.(mapped := d.mapped + Tile(base, chunks, handles, n))
  }

  lemma CanMapIgnoresLog(d: Driver, d': Driver, addr: int, size: int, handle: Handle)
    requires d'.live == d.live && d'.mapped == d.mapped && d'.reserved == d.reserved
    ensures d'.CanMap(addr, size, handle) <==> d.CanMap(addr, size, handle)
  {
    assert d'.IsReserved(addr, size) <==> d.IsReserved(addr, size);
  }

  lemma TileIsMapped(m: map<int, Mapping>, base: int, chunks: seq<int>, handles: seq<Handle>, n: nat)
    requires Positive(chunks) && n <= |chunks| && n <= |handles|
    ensures AreMapped(m + Tile(base, chunks, handles, n), base, chunks, n)
  {
    forall j | 0 <= j < n ensures IsMapped(m + Tile(base, chunks, handles, n), base, chunks, j) {
      TileAt(base, chunks, handles, n, j);
    }
  }

  /** In a free range every next chunk can be mapped. */
  lemma NextChunkCanBeMapped(d: ValidDriver, d': Driver, base: int, chunks: seq<int>, handles: seq<Handle>, i: nat)
    requires Positive(chunks) && d.IsFree(base, Sum(chunks))
    requires i < |chunks| == |handles| && handles[i] in d.live
    requires d'.live == d.live && d'.reserved == d.reserved && d'.mapped == d.mapped + Tile(base, chunks, handles, i)
    ensures d'.CanMap(Start(base, chunks, i), chunks[i], handles[i])
  {
    var addr, size := Start(base, chunks, i), chunks[i];
    StartIsSum(base, chunks, |chunks|);
    assert chunks[..|chunks|] == chunks;
    StartsAscend(base, chunks, 0, i);
    StartsAscend(base, chunks, i + 1, |chunks|);
    forall a | a in d'.mapped ensures a + d'.mapped[a].size <= addr || addr + size <= a {
      KeysOfTile(base, chunks, handles, i, a);
      if a in Tile(base, chunks, handles, i) {
        var j :| 0 <= j < i && Start(base, chunks, j) == a;
        TileAt(base, chunks, handles, i, j);
        StartsAscend(base, chunks, j + 1, i);
      }
    }
    assert addr !in d'.mapped by {
      assert addr in d.mapped ==> d.MappingIsFine(addr);
      KeysOfTile(base, chunks, handles, i, addr);
      forall j | 0 <= j < i ensures Start(base, chunks, j) != addr {
        StartsAscend(base, chunks, j, i);
      }
    }
  }

  ghost predicate CanHold(d: Driver, base: int, chunks: seq<int>) {
    Positive(chunks) && d.IsFree(base, Sum(chunks))
  }

  lemma CanHoldIgnoresLog(d: Driver, d': Driver, base: int, chunks: seq<int>)
    requires d'.mapped == d.mapped && d'.reserved == d.reserved
    ensures CanHold(d', base, chunks) <==> CanHold(d, base, chunks)
  {
    assert d'.IsReserved(base, Sum(chunks)) <==> d.IsReserved(base, Sum(chunks));
  }

  /** The first n chunks are mapped, where nothing was mapped before. */
  ghost predicate HasMapped(d: Driver, d': Driver, base: int, chunks: seq<int>, handles: seq<Handle>, n: nat)
    requires n <= |chunks| == |handles|
  {
    && d' == d.(log := d.log + MapLog(base, chunks, handles, n), mapped := d.mapped + Tile(base, chunks, handles, n))
    && forall j :: 0 <= j < n ==> IsVacant(d.mapped, base, chunks, j)
  }

  /** The first n handles are new ones, in order. */
  ghost predicate AreNumbered(handles: seq<Handle>, first: Handle, n: nat)
    requires n <= |handles|
  {
    forall j :: 0 <= j < n ==> handles[j] == first + j
  }

  lemma NumberedAreNew(d: ValidDriver, handles: seq<Handle>)
    requires AreNumbered(handles, d.next, |handles|)
    ensures AreDistinct(handles) && forall j :: 0 <= j < |handles| ==> handles[j] !in d.live
  {
  }

  /** The first n chunks have handles of their own. */
  ghost predicate HasCreated(d: Driver, d': Driver, chunks: seq<int>, handles: seq<Handle>, n: nat)
    requires n <= |chunks| == |handles|
  {
    && d' == d.(log := d.log + CreateLog(chunks, n), next := d.next + n, live := d.live + Front(handles, n))
    && AreNumbered(handles, d.next, n)
    && Positive(chunks[..n])
  }

  lemma CreateOneMore(
    d: Driver, d1: Driver, d2: Driver, chunks: seq<int>, handles: seq<Handle>, handles': seq<Handle>, i: nat)
    requires i < |chunks| == |handles| == |handles'| && HasCreated(d, d1, chunks, handles, i) && chunks[i] > 0
    requires d2 == d1.Logged(Create(chunks[i]), NO_ERROR).(live := d1.live + {d1.next}, next := d1.next + 1)
    requires handles' == handles[i := d1.next]
    ensures HasCreated(d, d2, chunks, handles', i + 1)
  {
    assert handles'[..i + 1] == handles[..i] + [d1.next];
    assert chunks[..i + 1] == chunks[..i] + [chunks[i]];
    Regroup(d.log, CreateLog(chunks, i), [Entry(Create(chunks[i]), NO_ERROR)]);
  }

  lemma CreatedAreLive(d: ValidDriver, d1: Driver, d2: Driver, chunks: seq<int>, handles: seq<Handle>, i: nat)
    requires i <= |chunks| == |handles| && HasCreated(d, d1, chunks, handles, i) && d1.live <= d2.live
    ensures AreLive(d2.live, handles[..i])
  {
    NumberedAreNew(d, handles[..i]);
    assert forall j :: 0 <= j < i ==> handles[..i][j] in Front(handles, i);
  }

  /** The handle of the next chunk does not matter. */
  lemma HasCreatedStill(
    d: Driver, d1: Driver, chunks: seq<int>, handles: seq<Handle>, handles': seq<Handle>, i: nat)
    requires i <= |chunks| == |handles| == |handles'| && HasCreated(d, d1, chunks, handles, i)
    requires handles'[..i] == handles[..i]
    ensures HasCreated(d, d1, chunks, handles', i)
  {
    assert forall j :: 0 <= j < i ==> handles'[j] == handles'[..i][j] == handles[j];
  }

  /** The create of one chunk stopped the loop; the earlier handles were released, and its own
      was not. */
  ghost predicate HasStopped(
    d: Driver, d': Driver, chunks: seq<int>, handles: seq<Handle>, created: nat, status: Status, releases: seq<Status>)
    requires |releases| == created < |chunks| == |handles|
  {
    && d'.log == d.log + CreateLog(chunks, created) + StoppedCreateLog(chunks, handles, created, status, releases)
    && d'.mapped == d.mapped && d'.reserved == d.reserved
    && d'.live == (d.live + Front(handles, created) + if status == NO_ERROR then {d.next + created} else {})
                  - Released(handles, releases)
    && AreNumbered(handles, d.next, created)
  }

  lemma StopCreating(
    d: Driver, d1: Driver, d2: Driver, d3: Driver, chunks: seq<int>, handles: seq<Handle>,
    i: nat, status: Status, releases: seq<Status>)
    requires |releases| == i < |chunks| == |handles|
    requires HasCreated(d, d1, chunks, handles, i)
    requires d2.log == d1.log + [Entry(Create(chunks[i]), status)] && d2.mapped == d1.mapped && d2.reserved == d1.reserved
    requires d2.live == d1.live + if status == NO_ERROR then {d1.next} else {}
    requires d3 == AfterReleases(d2, handles, releases)
    ensures HasStopped(d, d3, chunks, handles, i, status, releases)
  {
    Regroup(d.log + CreateLog(chunks, i), [Entry(Create(chunks[i]), status)], ReleaseLog(handles, releases));
  }

  lemma MapOneMore(d: Driver, d1: Driver, d2: Driver, base: int, chunks: seq<int>, handles: seq<Handle>, i: nat)
    requires i < |chunks| == |handles| && HasMapped(d, d1, base, chunks, handles, i)
    requires d1.CanMap(Start(base, chunks, i), chunks[i], handles[i])
    requires d2 == d1.Logged(Map(Start(base, chunks, i), chunks[i], handles[i]), NO_ERROR).(
                     mapped := d1.mapped[Start(base, chunks, i) := Mapping(chunks[i], handles[i], false)])
    ensures HasMapped(d, d2, base, chunks, handles, i + 1)
  {
    TileStep(d.mapped, base, chunks, handles, i);
    Regroup(d.log, MapLog(base, chunks, handles, i),
            [Entry(Map(Start(base, chunks, i), chunks[i], handles[i]), NO_ERROR)]);
    assert Start(base, chunks, i) !in d1.mapped;
    assert IsVacant(d.mapped, base, chunks, i);
  }

  lemma UndoneLog(log: seq<Entry>, e: Entry, unmaps: seq<Entry>, releases: seq<Entry>)
    ensures log + [e] + unmaps + releases == log + ([e] + unmaps + releases)
  {
  }

  /** Some chunks were mapped; what is left of them, and of the handles, after the clean-up. */
  ghost predicate HasUndone(
    d: Driver, d': Driver, base: int, chunks: seq<int>, handles: seq<Handle>,
    status: Status, unmaps: seq<Status>, releases: seq<Status>)
    requires |unmaps| < |chunks| == |handles| == |releases|
  {
    && d' == d.(log := d.log + MapLog(base, chunks, handles, |unmaps|)
                       + StoppedMapLog(base, chunks, handles, |unmaps|, status, unmaps, releases),
                mapped := (d.mapped + Tile(base, chunks, handles, |unmaps|)) - Unmapped(base, chunks, unmaps),
                live := d.live - Released(handles, releases))
    && forall j :: 0 <= j < |unmaps| ==> IsVacant(d.mapped, base, chunks, j)
  }

  /** How create_and_map ends. */
  datatype Outcome =
    | Mapped
    | CreateStopped(created: nat, status: Status, releases: seq<Status>)
    | MapStopped(mappedChunks: nat, status: Status, unmaps: seq<Status>, releases: seq<Status>)
    | AccessFailed(status: Status)
  {
    /** No chunk has a handle or a mapping left, and access was not set for what was mapped
        before, when `untouched` says that there is none of it in the range without access. */
    ghost predicate LeftNothing(chunks: seq<int>, untouched: bool) {
      match this
      case CreateStopped(_, status, releases) => status != NO_ERROR && AllSucceeded(releases)
      case MapStopped(_, _, unmaps, releases) => AllSucceeded(unmaps) && AllSucceeded(releases)
      case AccessFailed(status) => chunks == [] && (status == NO_ERROR ==> untouched)
      case Mapped => chunks == [] && untouched
    }

    /** The number of calls after those of ensure_context. */
    ghost function NumCalls(n: nat): nat {
      match this
      case CreateStopped(created, _, releases) => created + 1 + |releases|
      case MapStopped(mappedChunks, _, unmaps, releases) => n + mappedChunks + 1 + |unmaps| + |releases|
      case _ => 2 * n + 1
    }

    /** The loops began with the error code `entry`.  When it was set, the first create, or
        the access call when there are no chunks, is the last call. */
    ghost predicate Follows(entry: Status, chunks: seq<int>) {
      match this
      case Mapped => entry == NO_ERROR
      case AccessFailed(status) => if entry == NO_ERROR then status != NO_ERROR else chunks == []
      case CreateStopped(created, status, _) => if entry == NO_ERROR then status != NO_ERROR else created == 0
      case MapStopped(_, status, _, _) => entry == NO_ERROR && status != NO_ERROR
    }

    ghost predicate Fits(chunks: seq<int>) {
      match this
      case CreateStopped(created, _, releases) => |releases| == created < |chunks|
      case MapStopped(mappedChunks, _, unmaps, releases) => |unmaps| == mappedChunks < |chunks| == |releases|
      case _ => true
    }
  }

  /** The calls of create_and_map after those of ensure_context, in order. */
  ghost function Calls(size: int, base: int, chunks: seq<int>, handles: seq<Handle>, outcome: Outcome): (log: seq<Entry>)
    requires |handles| == |chunks| && outcome.Fits(chunks)
    ensures |log| == outcome.NumCalls(|chunks|)
  {
    match outcome
    case Mapped =>
      CreateLog(chunks, |chunks|) + MapLog(base, chunks, handles, |chunks|) + [Entry(SetAccess(base, size), NO_ERROR)]
    case AccessFailed(status) =>
      CreateLog(chunks, |chunks|) + MapLog(base, chunks, handles, |chunks|) + [Entry(SetAccess(base, size), status)]
    case CreateStopped(created, status, releases) =>
      CreateLog(chunks, created) + StoppedCreateLog(chunks, handles, created, status, releases)
    case MapStopped(n, status, unmaps, releases) =>
      CreateLog(chunks, |chunks|) + MapLog(base, chunks, handles, n)
      + StoppedMapLog(base, chunks, handles, n, status, unmaps, releases)
  }

  /** The create that stopped the loop, and the roll-back. */
  function StoppedCreateLog(
    chunks: seq<int>, handles: seq<Handle>, created: nat, status: Status, releases: seq<Status>): seq<Entry>
    requires |releases| == created < |chunks| == |handles|
  {
    [Entry(Create(chunks[created]), status)] + ReleaseLog(handles, releases)
  }

  /** The map that stopped the loop, and the roll-back. */
  function StoppedMapLog(
    base: int, chunks: seq<int>, handles: seq<Handle>, n: nat, status: Status, unmaps: seq<Status>, releases: seq<Status>):
    seq<Entry>
    requires |unmaps| == n < |chunks| == |handles| == |releases|
  {
    [Entry(Map(Start(base, chunks, n), chunks[n], handles[n]), status)]
    + UnmapLog(base, chunks, unmaps) + ReleaseLog(handles, releases)
  }

  /** Nothing but the log, and the next handle, is different. */
  ghost predicate Restored(d: Driver, d': Driver) {
    d'.live == d.live && d'.mapped == d.mapped && d'.reserved == d.reserved
  }

  /** The range at `base` is not reserved any more, and nothing else is different. */
  ghost predicate IsWithoutRange(d: Driver, d': Driver, base: int) {
    d'.live == d.live && d'.mapped == d.mapped && d'.reserved == d.reserved - {base}
  }

  /** All chunks are created and mapped, on top of what was there. */
  ghost predicate Added(d: Driver, d': Driver, base: int, chunks: seq<int>, handles: seq<Handle>)
    requires |handles| == |chunks|
  {
    && d'.live == d.live + Front(handles, |handles|)
    && d'.mapped == d.mapped + Tile(base, chunks, handles, |chunks|)
    && d'.reserved == d.reserved && AreDistinct(handles)
    && (forall j :: 0 <= j < |handles| ==> handles[j] !in d.live)
    && (forall j :: 0 <= j < |chunks| ==> IsVacant(d.mapped, base, chunks, j))
  }

  /** The same, and then access is set for the range. */
  ghost predicate Opened(d: Driver, d': Driver, size: int, base: int, chunks: seq<int>, handles: seq<Handle>)
    requires |handles| == |chunks|
  {
    var added := d.mapped + Tile(base, chunks, handles, |chunks|);
    Added(d, d'.(mapped := added), base, chunks, handles) && d'.mapped == Allow(added, base, size)
  }

  /** The addresses of chunk j are accessible, or none of them is. */
  ghost predicate ChunkIsAccessible(d: Driver, base: int, chunks: seq<int>, j: nat, accessible: bool) {
    forall a :: Inside(base, chunks, j, a) ==> (d.IsAccessible(a) <==> accessible)
  }

  /** A chunk is accessible exactly when it lies within the first `size` bytes. */
  ghost predicate AccessReaches(d: Driver, size: int, base: int, chunks: seq<int>) {
    && Positive(chunks)
    && forall j: nat :: j < |chunks| ==> ChunkIsReached(d, size, base, chunks, j)
  }

  ghost predicate ChunkIsReached(d: Driver, size: int, base: int, chunks: seq<int>, j: nat)
    requires j < |chunks|
  {
    ChunkIsAccessible(d, base, chunks, j, Start(base, chunks, j + 1) <= base + size)
  }

  ghost predicate NoneAccessible(d: Driver, base: int, chunks: seq<int>) {
    forall j: nat :: j < |chunks| ==> ChunkIsAccessible(d, base, chunks, j, false)
  }

  /** The mapping of a chunk decides for all its addresses. */
  lemma MappingDecides(d: ValidDriver, base: int, chunks: seq<int>, j: nat)
    requires j < |chunks| && IsMapped(d.mapped, base, chunks, j)
    ensures ChunkIsAccessible(d, base, chunks, j, d.mapped[Start(base, chunks, j)].access)
  {
    var addr := Start(base, chunks, j);
    forall a | Inside(base, chunks, j, a) ensures d.IsAccessible(a) <==> d.mapped[addr].access {
      if d.IsAccessible(a) {
        var b :| b in d.mapped && b <= a < b + d.mapped[b].size && d.mapped[b].access;
        assert d.MappingsAreApart(addr, b) && d.MappingsAreApart(b, addr);
      }
    }
  }

  lemma AddedIsClosed(d: Driver, d': ValidDriver, base: int, chunks: seq<int>, handles: seq<Handle>)
    requires |handles| == |chunks| && Positive(chunks) && Added(d, d', base, chunks, handles)
    ensures NoneAccessible(d', base, chunks)
  {
    forall j: nat | j < |chunks| ensures ChunkIsAccessible(d', base, chunks, j, false) {
      TileAt(base, chunks, handles, |chunks|, j);
      MappingDecides(d', base, chunks, j);
    }
  }

  lemma OpenedIsAccessible(d: Driver, d': ValidDriver, size: int, base: int, chunks: seq<int>, handles: seq<Handle>)
    requires |handles| == |chunks| && Positive(chunks) && Opened(d, d', size, base, chunks, handles)
    ensures AccessReaches(d', size, base, chunks)
  {
    forall j: nat | j < |chunks| ensures ChunkIsReached(d', size, base, chunks, j) {
      TileAt(base, chunks, handles, |chunks|, j);
      StartsAscend(base, chunks, 0, j);
      MappingDecides(d', base, chunks, j);
    }
  }

  /** Every address of the chunks is accessible. */
  ghost predicate AllAccessible(d: Driver, base: int, chunks: seq<int>) {
    forall a :: base <= a < base + Sum(chunks) ==> d.IsAccessible(a)
  }

  /** A size that covers the chunks makes every address of theirs accessible. */
  lemma ReachingAllIsAccessible(d: Driver, size: int, base: int, chunks: seq<int>)
    requires AccessReaches(d, size, base, chunks) && Sum(chunks) <= size
    ensures AllAccessible(d, base, chunks)
  {
    forall a | base <= a < base + Sum(chunks) ensures d.IsAccessible(a) {
      ChunksCoverOnce(base, chunks, a);
      var j :| Inside(base, chunks, j, a);
      StartIsSum(base, chunks, |chunks|);
      assert chunks[..|chunks|] == chunks;
      StartsAscend(base, chunks, j + 1, |chunks|);
      assert ChunkIsReached(d, size, base, chunks, j);
    }
  }

  /** The mappings with access set. */
  function Open(m: map<int, Mapping>): (r: map<int, Mapping>)
    ensures r.Keys == m.Keys && forall a :: a in m ==> r[a] == m[a].(access := true)
  {
    map a | a in m :: m[a].(access := true)
  }

  /** Setting access for a range that only the chunks have mappings in changes nothing else. */
  lemma OpensOnlyChunks(d: ValidDriver, size: int, base: int, chunks: seq<int>, handles: seq<Handle>)
    requires |handles| == |chunks| && Positive(chunks) && Sum(chunks) <= size
    requires forall a :: a in d.mapped ==> size > 0 ==> a + d.mapped[a].size <= base || base + size <= a
    ensures
      var tile := Tile(base, chunks, handles, |chunks|);
      Allow(d.mapped + tile, base, size) == d.mapped + Open(tile)
  {
    var n := |chunks|;
    var tile := Tile(base, chunks, handles, n);
    forall a | a in d.mapped + tile ensures Allow(d.mapped + tile, base, size)[a] == (d.mapped + Open(tile))[a] {
      if a in tile {
        KeysOfTile(base, chunks, handles, n, a);
        var j :| 0 <= j < n && Start(base, chunks, j) == a;
        TileIsWithin(size, base, chunks, handles, j);
      } else {
        assert d.MappingIsFine(a);
      }
    }
  }

  lemma TileIsWithin(size: int, base: int, chunks: seq<int>, handles: seq<Handle>, j: nat)
    requires j < |chunks| == |handles| && Positive(chunks) && Sum(chunks) <= size
    ensures
      var tile, a := Tile(base, chunks, handles, |chunks|), Start(base, chunks, j);
      a in tile && base <= a && a + tile[a].size <= base + size
  {
    TileAt(base, chunks, handles, |chunks|, j);
    StartIsSum(base, chunks, |chunks|);
    assert chunks[..|chunks|] == chunks;
    StartsAscend(base, chunks, 0, j);
    StartsAscend(base, chunks, j + 1, |chunks|);
  }

  /** Setting access for the range changes nothing that is mapped already. */
  ghost predicate Untouched(d: Driver, base: int, size: int) {
    Allow(d.mapped, base, size) == d.mapped
  }

  lemma FreeIsUntouched(d: ValidDriver, base: int, size: int)
    requires d.CanFree(base, size)
    ensures Untouched(d, base, size)
  {
    forall a | a in d.mapped ensures Allow(d.mapped, base, size)[a] == d.mapped[a] {
      assert d.MappingIsFine(a);
    }
  }

  /** What create_and_map does, when its loops start with the error code `entry`. */
  ghost predicate CreatesAndMaps(
    d: Driver, entry: Status, d': Driver, size: int, base: int, chunks: seq<int>, handles: seq<Handle>, outcome: Outcome)
    requires |handles| == |chunks| && outcome.Fits(chunks)
  {
    && outcome.Follows(entry, chunks)
    && (Restored(d, d') <==> outcome.LeftNothing(chunks, Untouched(d, base, size)))
    && match outcome
       case CreateStopped(created, status, releases) =>
         && d'.mapped == d.mapped && d'.reserved == d.reserved
         && d'.live == (d.live + Front(handles, created) + if status == NO_ERROR then {d.next} else {})
                       - Released(handles, releases)
       case MapStopped(mappedChunks, status, unmaps, releases) =>
         && d'.reserved == d.reserved
         && d'.mapped == (d.mapped + Tile(base, chunks, handles, mappedChunks)) - Unmapped(base, chunks, unmaps)
         && d'.live == (d.live + Front(handles, |chunks|)) - Released(handles, releases)
       case AccessFailed(status) =>
         && (if status == NO_ERROR then Opened(d, d', size, base, chunks, handles) else Added(d, d', base, chunks, handles))
         && NoneAccessible(d', base, chunks)
       case Mapped => Opened(d, d', size, base, chunks, handles) && AccessReaches(d', size, base, chunks)
  }

  /** Roll-back after a create. */
  lemma StoppedAtCreate(
    d: ValidDriver, entry: Status, d': Driver, size: int, base: int, chunks: seq<int>, handles: seq<Handle>,
    created: nat, status: Status, releases: seq<Status>)
    requires |releases| == created < |chunks| == |handles|
    requires (entry == NO_ERROR ==> status != NO_ERROR) && (entry != NO_ERROR ==> created == 0)
    requires HasStopped(d, d', chunks, handles, created, status, releases)
    ensures CreatesAndMaps(d, entry, d', size, base, chunks, handles, CreateStopped(created, status, releases))
  {
    NumberedAreNew(d, handles[..created]);
    HandlesUndone(d.live, handles, releases);
    assert created == 0 ==> Front(handles, created) == {} && Released(handles, releases) == {};
  }

  /** Roll-back after a map. */
  lemma StoppedAtMap(
    d: Driver, d1: Driver, d': Driver, size: int, base: int, chunks: seq<int>, handles: seq<Handle>,
    stopped: nat, status: Status, unmaps: seq<Status>, releases: seq<Status>)
    requires |unmaps| == stopped < |chunks| == |handles| == |releases| && status != NO_ERROR
    requires HasCreated(d, d1, chunks, handles, |chunks|) && HasUndone(d1, d', base, chunks, handles, status, unmaps, releases)
    requires AreDistinct(handles) && forall j :: 0 <= j < |handles| ==> handles[j] !in d.live
    ensures CreatesAndMaps(d, NO_ERROR, d', size, base, chunks, handles, MapStopped(stopped, status, unmaps, releases))
  {
    assert chunks[..|chunks|] == chunks && handles[..|handles|] == handles;
    HandlesUndone(d.live, handles, releases);
    TileUndone(d.mapped, base, chunks, handles, unmaps);
  }

  lemma StoppedAtMapLog(
    d: Driver, d1: Driver, d': Driver, size: int, base: int, chunks: seq<int>, handles: seq<Handle>,
    stopped: nat, status: Status, unmaps: seq<Status>, releases: seq<Status>)
    requires |unmaps| == stopped < |chunks| == |handles| == |releases|
    requires d1.log == d.log + CreateLog(chunks, |chunks|)
    requires d'.log == d1.log + MapLog(base, chunks, handles, stopped)
                       + StoppedMapLog(base, chunks, handles, stopped, status, unmaps, releases)
    ensures d'.log == d.log + Calls(size, base, chunks, handles, MapStopped(stopped, status, unmaps, releases))
  {
    var created, mapped := CreateLog(chunks, |chunks|), MapLog(base, chunks, handles, stopped);
    Regroup(d.log, created, mapped);
    Regroup(d.log, created + mapped, StoppedMapLog(base, chunks, handles, stopped, status, unmaps, releases));
  }

  /** In a free range the map that stopped the loop was legal. */
  lemma StoppedMapWasLegal(d: Driver, d1: ValidDriver, base: int, chunks: seq<int>, handles: seq<Handle>, stopped: nat)
    requires stopped < |chunks| == |handles| && HasCreated(d, d1, chunks, handles, |chunks|)
    requires CanHold(d, base, chunks)
    ensures WithTile(d1, base, chunks, handles, stopped).CanMap(Start(base, chunks, stopped), chunks[stopped], handles[stopped])
  {
    assert handles[..|chunks|][stopped] == handles[stopped];
    NextChunkCanBeMapped(d1, WithTile(d1, base, chunks, handles, stopped), base, chunks, handles, stopped);
  }

  lemma AllAdded(d: ValidDriver, d1: Driver, d2: Driver, base: int, chunks: seq<int>, handles: seq<Handle>)
    requires |handles| == |chunks| && HasCreated(d, d1, chunks, handles, |chunks|)
    requires HasMapped(d1, d2, base, chunks, handles, |chunks|)
    ensures Added(d, d2, base, chunks, handles)
  {
    NumberedAreNew(d, handles);
  }

  /** With chunks there is a new handle, and without them only access can be different. */
  lemma AddedIsSomething(d: Driver, d': Driver, base: int, chunks: seq<int>, handles: seq<Handle>)
    requires |handles| == |chunks| && Added(d, d', base, chunks, handles)
    ensures chunks != [] ==> d'.live != d.live
    ensures chunks == [] ==> d'.live == d.live && d'.mapped == d.mapped
  {
    if chunks != [] {
      assert handles[0] in handles[..|handles|];
    }
  }

  lemma AccessIsSet(
    d: Driver, d1: Driver, d': ValidDriver, entry: Status, status: Status, size: int, base: int, chunks: seq<int>,
    handles: seq<Handle>, outcome: Outcome)
    requires |handles| == |chunks| && Positive(chunks) && Added(d, d1, base, chunks, handles)
    requires chunks != [] ==> entry == NO_ERROR
    requires outcome == if status == NO_ERROR && entry == NO_ERROR then Mapped else AccessFailed(status)
    requires d' == d1.Logged(SetAccess(base, size), status).(
                     mapped := if status == NO_ERROR then Allow(d1.mapped, base, size) else d1.mapped)
    ensures CreatesAndMaps(d, entry, d', size, base, chunks, handles, outcome)
  {
    AddedIsSomething(d, d1, base, chunks, handles);
    if status == NO_ERROR {
      assert d'.(mapped := d1.mapped) == d1.(log := d'.log);
      OpenedIsAccessible(d, d', size, base, chunks, handles);
    } else {
      AddedIsClosed(d, d', base, chunks, handles);
    }
  }

  /** The calls of ensure_context change the log only. */
  lemma ContextDoesNotMatter(
    d: Driver, d1: Driver, entry: Status, d': Driver, size: int, base: int, chunks: seq<int>, handles: seq<Handle>, outcome: Outcome)
    requires |handles| == |chunks| && outcome.Fits(chunks)
    requires d1 == d.(log := d1.log) && CreatesAndMaps(d1, entry, d', size, base, chunks, handles, outcome)
    ensures CreatesAndMaps(d, entry, d', size, base, chunks, handles, outcome)
  {
  }

  /** How freeing an address range and reserving it again ends. */
  datatype AddressCycle =
    | NotTried
    | Cycled
    | FreeFailed(status: Status)
    | ReserveFailed(status: Status)
    | Moved(addr: int, status: Status)   // and the status of freeing the other range again
  {
    /** The reservations afterwards. */
    function Reserved(before: map<int, int>, base: int, size: int): map<int, int> {
      match this
      case ReserveFailed(_) => before - {base}
      case Moved(addr, status) => if status == NO_ERROR then before - {base} else (before - {base})[addr := size]
      case _ => before
    }

    function Log(base: int, size: int): seq<Entry> {
      var free, reserve := Entry(AddressFree(base, size), NO_ERROR), Entry(AddressReserve(size, base), NO_ERROR);
      match this
      case NotTried => []
      case Cycled => [free, reserve]
      case FreeFailed(status) => [Entry(AddressFree(base, size), status)]
      case ReserveFailed(status) => [free, Entry(AddressReserve(size, base), status)]
      case Moved(addr, status) => [free, reserve, Entry(AddressFree(addr, size), status)]
    }
  }

  /** What unmap_and_release does, and which calls it makes: every chunk is unmapped once and
      released once, and then the range is cycled. */
  ghost predicate UnmapsAndReleases(
    d: Driver, context: Status, d': Driver, size: int, base: int, chunks: seq<int>, handles: seq<Handle>,
    unmaps: seq<Status>, releases: seq<Status>, cycle: AddressCycle)
  {
    && |unmaps| == |releases| == |chunks| == |handles|
    && d'.mapped == d.mapped - Unmapped(base, chunks, unmaps)
    && d'.live == d.live - Released(handles, releases)
    && d'.next == d.next
    && d'.reserved == cycle.Reserved(d.reserved, base, size)
    && d'.log == d.log + [Entry(GetContext, context)] + UnmapLog(base, chunks, unmaps)
                 + ReleaseLog(handles, releases) + cycle.Log(base, size)
    && (cycle.NotTried? <==> !AllSucceeded(unmaps + releases))
  }

  class Allocator {
    const faults: seq<Status>   // by the position of the call in the log, and none after that
    const places: seq<Option<int>>   // by the same position, where the driver reserves instead of where it is asked to
    var driver: ValidDriver
    var errorCode: Status

    function Fault(k: nat): Status {
      if k < |faults| then faults[k] else NO_ERROR
    }

    function Place(k: nat, hint: int): int {
      if k < |places| && places[k].Some? then places[k].value else hint
    }

    /** The status of the next call: illegal calls fail, legal ones as the oracle says. */
    function StatusOf(legal: bool): Status
      reads this`driver
    {
      if legal then Fault(|driver.log|) else ERROR_INVALID
    }

    constructor (faults: seq<Status>, places: seq<Option<int>>)
      ensures this.faults == faults && this.places == places
      ensures driver == Driver([], 0, {}, map[], map[]) && errorCode == NO_ERROR
    {
      this.faults, this.places := faults, places;
      driver, errorCode := Driver([], 0, {}, map[], map[]), NO_ERROR;
    }

    /** From call t up to call u, every legal call succeeds. */
    ghost predicate NoFaultsIn(t: nat, u: nat) {
      forall k: nat :: t <= k < u ==> Fault(k) == NO_ERROR
    }

    /** The calls from t on were legal, so their statuses are those of the oracle. */
    ghost predicate FromOracle(statuses: seq<Status>, t: nat) {
      forall j :: 0 <= j < |statuses| ==> statuses[j] == Fault(t + j)
    }

    /** Calls from t on never succeed where the oracle has a fault. */
    ghost predicate NoBetterThanOracle(statuses: seq<Status>, t: nat) {
      forall j :: 0 <= j < |statuses| ==> statuses[j] == NO_ERROR ==> Fault(t + j) == NO_ERROR
    }

    lemma OneMoreStatus(statuses: seq<Status>, status: Status, t: nat)
      ensures NoBetterThanOracle(statuses, t) && (status == NO_ERROR ==> Fault(t + |statuses|) == NO_ERROR) ==>
                NoBetterThanOracle(statuses + [status], t)
      ensures FromOracle(statuses, t) && status == Fault(t + |statuses|) ==> FromOracle(statuses + [status], t)
    {
    }

    lemma OneMoreCall(t: nat, u: nat)
      requires NoFaultsIn(t, u) && Fault(u) == NO_ERROR
      ensures NoFaultsIn(t, u + 1)
    {
    }

    /** The statuses in an outcome, when the first create is call t.  Every call is legal but
        for the create of an empty chunk and, when the range cannot hold the chunks, a map. */
    ghost predicate FollowsOracle(outcome: Outcome, chunks: seq<int>, canHold: bool, t: nat)
      requires outcome.Fits(chunks)
    {
      var n := |chunks|;
      match outcome
      case Mapped => NoFaultsIn(t, t + 2 * n + 1)
      case AccessFailed(status) => NoFaultsIn(t, t + 2 * n) && status == Fault(t + 2 * n)
      case CreateStopped(created, status, releases) =>
        && NoFaultsIn(t, t + created) && FromOracle(releases, t + created + 1)
        && status == if chunks[created] > 0 then Fault(t + created) else ERROR_INVALID
      case MapStopped(m, status, unmaps, releases) =>
        && NoFaultsIn(t, t + n + m) && (status == Fault(t + n + m) || (!canHold && status == ERROR_INVALID))
        && FromOracle(unmaps, t + n + m + 1) && FromOracle(releases, t + n + 2 * m + 1)
    }

    /** Call s is the first one from t on that has a fault. */
    ghost predicate IsFirstFault(t: nat, s: nat) {
      t <= s && NoFaultsIn(t, s) && Fault(s) != NO_ERROR
    }

    /** When create_and_map begins with call t and call s is the first that has a fault, this is
        the call after its last one.  A fault of a create or a map is followed by one call for
        each create and map before it. */
    ghost function EndOf(t: nat, n: nat, s: nat): nat
      requires t <= s < t + 2 * n + 2
    {
      if s == t then t + 2 else if s == t + 2 * n + 1 then s + 1 else s + (s - t)
    }

    /** Then nothing is left behind exactly when the call after a fault of ensure_context has
        a fault too, or no call that undoes a create or a map has one; after the access call
        nothing is undone.  Without chunks, the call after ensure_context is the access call. */
    ghost predicate Undoes(t: nat, n: nat, s: nat, untouched: bool)
      requires t <= s < t + 2 * n + 2
    {
      if s == t then Fault(t + 1) != NO_ERROR || (n == 0 && untouched)
      else if s == t + 2 * n + 1 then n == 0
      else NoFaultsIn(s + 1, EndOf(t, n, s))
    }

    lemma SucceededFromOracle(statuses: seq<Status>, t: nat)
      requires FromOracle(statuses, t)
      ensures AllSucceeded(statuses) <==> NoFaultsIn(t, t + |statuses|)
    {
      if AllSucceeded(statuses) {
        forall k: nat | t <= k < t + |statuses| ensures Fault(k) == NO_ERROR {
          assert statuses[k - t] == NO_ERROR;
        }
      }
    }

    lemma BothFromOracle(a: seq<Status>, b: seq<Status>, t: nat)
      requires FromOracle(a, t) && FromOracle(b, t + |a|)
      ensures AllSucceeded(a + b) <==> NoFaultsIn(t, t + |a| + |b|)
    {
      SucceededFromOracle(a, t);
      SucceededFromOracle(b, t + |a|);
      SucceededBoth(a, b);
      NoFaultsInBoth(t, t + |a|, t + |a| + |b|);
    }

    lemma NoFaultsInBoth(t: nat, u: nat, v: nat)
      requires t <= u <= v
      ensures NoFaultsIn(t, v) <==> NoFaultsIn(t, u) && NoFaultsIn(u, v)
    {
    }

    lemma FirstFaultIsOne(t: nat, s: nat, k: nat)
      requires IsFirstFault(t, s) && t <= k && NoFaultsIn(t + 1, k)
      ensures s == t || k <= s
      ensures s > t && Fault(k) != NO_ERROR && k > t ==> s == k
    {
    }

    /** The first fault decides how create_and_map ends and what it leaves behind. */
    lemma FirstFaultDecides(outcome: Outcome, chunks: seq<int>, t: nat, s: nat, untouched: bool)
      requires outcome.Fits(chunks) && outcome.Follows(Fault(t), chunks) && Positive(chunks)
      requires FollowsOracle(outcome, chunks, true, t + 1)
      requires IsFirstFault(t, s) && s < t + 2 * |chunks| + 2
      ensures !outcome.Mapped?
      ensures outcome.LeftNothing(chunks, untouched) <==> Undoes(t, |chunks|, s, untouched)
      ensures t + 1 + outcome.NumCalls(|chunks|) == EndOf(t, |chunks|, s)
    {
      MapsIffNoFaults(outcome, chunks, t);
      if s > t {
        LaterFaultDecides(outcome, chunks, t, s, untouched);
      }
    }

    lemma LaterFaultDecides(outcome: Outcome, chunks: seq<int>, t: nat, s: nat, untouched: bool)
      requires outcome.Fits(chunks) && outcome.Follows(NO_ERROR, chunks) && Positive(chunks) && !outcome.Mapped?
      requires FollowsOracle(outcome, chunks, true, t + 1)
      requires IsFirstFault(t, s) && t < s < t + 2 * |chunks| + 2
      ensures outcome.LeftNothing(chunks, untouched) <==> Undoes(t, |chunks|, s, untouched)
      ensures t + 1 + outcome.NumCalls(|chunks|) == EndOf(t, |chunks|, s)
    {
      var n := |chunks|;
      match outcome
      case AccessFailed(status) =>
        FirstFaultIsOne(t, s, t + 2 * n + 1);
      case CreateStopped(c, status, releases) =>
        FirstFaultIsOne(t, s, t + 1 + c);
        SucceededFromOracle(releases, s + 1);
      case MapStopped(m, status, unmaps, releases) =>
        FirstFaultIsOne(t, s, t + 1 + n + m);
        SucceededFromOracle(unmaps, s + 1);
        SucceededFromOracle(releases, s + 1 + m);
        NoFaultsInBoth(s + 1, s + 1 + m, s + 1 + m + n);
    }

    /** What create_and_map leaves of n chunks in a range that can hold them, when the error
        code is clear. */
    ghost predicate UndoneByOracle(d: Driver, d': Driver, n: nat, untouched: bool) {
      var t := |d.log|;
      forall s: nat {:trigger IsFirstFault(t, s)} :: IsFirstFault(t, s) && s < t + 2 * n + 2 ==>
        (Restored(d, d') <==> Undoes(t, n, s, untouched)) && |d'.log| == EndOf(t, n, s)
    }

    lemma OracleDecides(d: Driver, d': Driver, size: int, base: int, chunks: seq<int>, handles: seq<Handle>, outcome: Outcome)
      requires |handles| == |chunks| && outcome.Fits(chunks) && Positive(chunks)
      requires CreatesAndMaps(d, Fault(|d.log|), d', size, base, chunks, handles, outcome)
      requires FollowsOracle(outcome, chunks, true, |d.log| + 1)
      requires |d'.log| == |d.log| + 1 + outcome.NumCalls(|chunks|)
      ensures UndoneByOracle(d, d', |chunks|, Untouched(d, base, size))
    {
      var t := |d.log|;
      forall s: nat | IsFirstFault(t, s) && s < t + 2 * |chunks| + 2
        ensures (Restored(d, d') <==> Undoes(t, |chunks|, s, Untouched(d, base, size))) && |d'.log| == EndOf(t, |chunks|, s)
      {
        FirstFaultDecides(outcome, chunks, t, s, Untouched(d, base, size));
      }
    }

    lemma MapsIffNoFaults(outcome: Outcome, chunks: seq<int>, t: nat)
      requires outcome.Fits(chunks) && outcome.Follows(Fault(t), chunks) && Positive(chunks)
      requires FollowsOracle(outcome, chunks, true, t + 1)
      ensures outcome.Mapped? <==> NoFaultsIn(t, t + 2 * |chunks| + 2)
    {
      NoFaultsInBoth(t, t + 1, t + 2 * |chunks| + 2);
    }

    lemma FreeingDecides(d: Driver, d1: Driver, d': Driver, base: int, total: int, n: nat, freed: Status)
      requires d.CanFree(base, total) && UndoneByOracle(d, d1, n, true) && d1.reserved == d.reserved
      requires freed == if d1.CanFree(base, total) then Fault(|d1.log|) else ERROR_INVALID
      requires d'.live == d1.live && d'.mapped == d1.mapped
      requires d'.reserved == if freed == NO_ERROR then d1.reserved - {base} else d1.reserved
      ensures FreedByOracle(d, d', base, n)
    {
      var t := |d.log|;
      forall s: nat | IsFirstFault(t, s) && s < t + 2 * n + 2
        ensures IsWithoutRange(d, d', base) <==> Undoes(t, n, s, true) && Fault(EndOf(t, n, s)) == NO_ERROR
      {
        assert (Restored(d, d1) <==> Undoes(t, n, s, true)) && |d1.log| == EndOf(t, n, s);
        assert base in d.reserved && base !in d.reserved - {base};
      }
    }

    /** What my_malloc leaves, when it got as far as create_and_map: nothing exactly when that
        leaves nothing and the range is freed. */
    ghost predicate FreedByOracle(d: Driver, d': Driver, base: int, n: nat) {
      var t := |d.log|;
      forall s: nat {:trigger IsFirstFault(t, s)} :: IsFirstFault(t, s) && s < t + 2 * n + 2 ==>
        (IsWithoutRange(d, d', base) <==> Undoes(t, n, s, true) && Fault(EndOf(t, n, s)) == NO_ERROR)
    }

    /** The same for the driver before the range was reserved, with three calls. */
    ghost predicate RestoredByOracle(d: Driver, d': Driver, n: nat) {
      var t := |d.log| + 3;
      forall s: nat {:trigger IsFirstFault(t, s)} :: IsFirstFault(t, s) && s < t + 2 * n + 2 ==>
        (Restored(d, d') <==> Undoes(t, n, s, true) && Fault(EndOf(t, n, s)) == NO_ERROR)
    }

    lemma MallocDecides(d: Driver, d': Driver, base: int, total: int, n: nat)
      requires base !in d.reserved && FreedByOracle(Reserving(d, base, total), d', base, n)
      ensures RestoredByOracle(d, d', n)
    {
      assert d.reserved[base := total] - {base} == d.reserved;
    }

    /** How the address range is cycled from call t on. */
    ghost predicate CyclesBy(cycle: AddressCycle, d: Driver, t: nat, size: int, base: int) {
      var canReserve := d.(reserved := d.reserved - {base}).IsUnreserved(Place(t + 1, base), size);
      var frees, reserves := d.CanFree(base, size) && Fault(t) == NO_ERROR, canReserve && Fault(t + 1) == NO_ERROR;
      && (cycle.FreeFailed? <==> !frees)
      && (cycle.ReserveFailed? <==> frees && !reserves)
      && (cycle.Moved? <==> frees && reserves && Place(t + 1, base) != base)
      && (cycle.Cycled? <==> frees && reserves && Place(t + 1, base) == base)
      && (cycle.FreeFailed? ==> cycle.status == if d.CanFree(base, size) then Fault(t) else ERROR_INVALID)
      && (cycle.ReserveFailed? ==> cycle.status == if canReserve then Fault(t + 1) else ERROR_INVALID)
      && (cycle.Moved? ==> cycle.addr == Place(t + 1, base) && cycle.status == Fault(t + 2))
    }

    method Check(status: Status)
      modifies this`errorCode
      ensures errorCode == if status != NO_ERROR then status else old(errorCode)
    {
      if status != NO_ERROR {
        errorCode := status;
      }
    }

    method UnmapChunk(addr: int, size: int) returns (status: Status)
      modifies this`driver
      ensures status == old(StatusOf(driver.CanUnmap(addr, size)))
      ensures driver == old(driver).Logged(Unmap(addr, size), status).(
                          mapped := if status == NO_ERROR then old(driver.mapped) - {addr} else old(driver.mapped))
    {
      status := StatusOf(driver.CanUnmap(addr, size));
      driver := Log(driver, Unmap(addr, size), status);
      if status == NO_ERROR {
        driver := WithoutMapping(driver, addr);
      }
    }

    method ReleaseHandle(h: Handle) returns (status: Status)
      modifies this`driver
      ensures status == old(StatusOf(h in driver.live))
      ensures driver == old(driver).Logged(Release(h), status).(
                          live := if status == NO_ERROR then old(driver.live) - {h} else old(driver.live))
    {
      status := StatusOf(h in driver.live);
      driver := Log(driver, Release(h), status);
      if status == NO_ERROR {
        driver := WithoutHandle(driver, h);
      }
    }

    /** Unmaps the first n chunks, whatever the statuses. */
    method UnmapChunks(base: int, chunks: seq<int>, n: nat, first: Status)
      returns (first': Status, ghost statuses: seq<Status>)
      requires n <= |chunks|
      modifies this`driver
      ensures |statuses| == n
      ensures driver == AfterUnmaps(old(driver), base, chunks, statuses)
      ensures NoBetterThanOracle(statuses, |old(driver.log)|)
      ensures AreMapped(old(driver.mapped), base, chunks, n) ==> FromOracle(statuses, |old(driver.log)|)
      ensures first' == FirstError(first, statuses)
    {
      first', statuses := first, [];
      var addr := base;
      for j := 0 to n
        invariant |statuses| == j && addr == Start(base, chunks, j) && |driver.log| == |old(driver.log)| + j
        invariant driver == AfterUnmaps(old(driver), base, chunks, statuses)
        invariant NoBetterThanOracle(statuses, |old(driver.log)|)
        invariant AreMapped(old(driver.mapped), base, chunks, n) ==> FromOracle(statuses, |old(driver.log)|)
        invariant first' == FirstError(first, statuses)
      {
        ghost var before := driver;
        if AreMapped(old(driver.mapped), base, chunks, n) {
          assert IsMapped(old(driver.mapped), base, chunks, j);
          NotUnmappedYet(base, chunks, statuses, j);
        }
        var status := UnmapChunk(addr, chunks[j]);
        if status != NO_ERROR && first' == NO_ERROR {
          first' := status;
        }
        FirstErrorOneMore(first, statuses, status);
        OneMoreStatus(statuses, status, |old(driver.log)|);
        UnmapOneMore(old(driver), before, base, chunks, statuses, status);
        statuses, addr := statuses + [status], addr + chunks[j];
      }
    }

    /** Releases the first n handles, whatever the statuses. */
    method ReleaseHandles(handles: seq<Handle>, n: nat, first: Status)
      returns (first': Status, ghost statuses: seq<Status>)
      requires n <= |handles|
      modifies this`driver
      ensures |statuses| == n
      ensures driver == AfterReleases(old(driver), handles, statuses)
      ensures NoBetterThanOracle(statuses, |old(driver.log)|)
      ensures AreLive(old(driver.live), handles[..n]) ==> FromOracle(statuses, |old(driver.log)|)
      ensures first' == FirstError(first, statuses)
    {
      first', statuses := first, [];
      for j := 0 to n
        invariant |statuses| == j && |driver.log| == |old(driver.log)| + j
        invariant driver == AfterReleases(old(driver), handles, statuses)
        invariant NoBetterThanOracle(statuses, |old(driver.log)|)
        invariant AreLive(old(driver.live), handles[..n]) ==> FromOracle(statuses, |old(driver.log)|)
        invariant first' == FirstError(first, statuses)
      {
        ghost var before := driver;
        if AreLive(old(driver.live), handles[..n]) {
          StillLive(old(driver.live), handles, n, statuses, j);
        }
        var status := ReleaseHandle(handles[j]);
        if status != NO_ERROR && first' == NO_ERROR {
          first' := status;
        }
        FirstErrorOneMore(first, statuses, status);
        OneMoreStatus(statuses, status, |old(driver.log)|);
        ReleaseOneMore(old(driver), before, handles, statuses, status);
        statuses := statuses + [status];
      }
    }

    /** cuMemCreate for chunk i with its check. */
    method CreateChunk(chunks: seq<int>, handles: array<Handle>, i: nat) returns (status: Status)
      requires i < |chunks| == handles.Length
      modifies this`driver, this`errorCode, handles
      ensures status == old(StatusOf(chunks[i] > 0))
      ensures errorCode == if status != NO_ERROR then status else old(errorCode)
      ensures status != NO_ERROR ==>
                && driver == old(driver).Logged(Create(chunks[i]), status)
                && handles[..] == old(handles[..])
      ensures status == NO_ERROR ==>
                && driver == old(driver).Logged(Create(chunks[i]), status).(
                               live := old(driver.live) + {old(driver.next)}, next := old(driver.next) + 1)
                && handles[..] == old(handles[..])[i := old(driver.next)]
    {
      status := StatusOf(chunks[i] > 0);
      driver := Log(driver, Create(chunks[i]), status);
      if status == NO_ERROR {
        handles[i] := driver.next;
        driver := WithHandle(driver);
      }
      Check(status);
    }

    /** The roll-back after the create of chunk i. */
    method UndoCreates(
      chunks: seq<int>, handles: seq<Handle>, i: nat, ghost d: ValidDriver, ghost before: ValidDriver, ghost status: Status)
      returns (ghost releases: seq<Status>)
      requires i < |chunks| == |handles| && HasCreated(d, before, chunks, handles, i)
      requires driver.log == before.log + [Entry(Create(chunks[i]), status)]
      requires driver.mapped == before.mapped && driver.reserved == before.reserved
      requires driver.live == before.live + if status == NO_ERROR then {before.next} else {}
      requires NoFaultsIn(|d.log|, |d.log| + i)
      requires status == if chunks[i] > 0 then Fault(|d.log| + i) else ERROR_INVALID
      modifies this`driver
      ensures |releases| == i
      ensures FollowsOracle(CreateStopped(i, status, releases), chunks, false, |d.log|)
      ensures HasStopped(d, driver, chunks, handles, i, status, releases)
    {
      CreatedAreLive(d, before, driver, chunks, handles, i);
      ghost var stopped := driver;
      var ignored;
      ignored, releases := ReleaseHandles(handles, i, NO_ERROR);
      StopCreating(d, before, stopped, driver, chunks, handles, i, status, releases);
    }

    /** Creates a handle for every chunk.  When the error code is set, the handles of the
        earlier chunks are released; the handle of the last create is not. */
    method CreateChunks(chunks: seq<int>, handles: array<Handle>)
      returns (ok: bool, ghost created: nat, ghost status: Status, ghost releases: seq<Status>)
      requires handles.Length == |chunks|
      modifies this`driver, this`errorCode, handles
      ensures ok ==>
                && created == |chunks| && NoFaultsIn(|old(driver.log)|, |old(driver.log)| + |chunks|)
                && errorCode == old(errorCode) && (chunks != [] ==> errorCode == NO_ERROR)
                && HasCreated(old(driver), driver, chunks, handles[..], created)
      ensures !ok ==> errorCode != NO_ERROR && |releases| == created < |chunks|
      ensures !ok ==>
                && (old(errorCode) == NO_ERROR ==> status != NO_ERROR) && (old(errorCode) != NO_ERROR ==> created == 0)
                && FollowsOracle(CreateStopped(created, status, releases), chunks, false, |old(driver.log)|)
                && HasStopped(old(driver), driver, chunks, handles[..], created, status, releases)
    {
      created, status, releases := 0, NO_ERROR, [];
      for i := 0 to |chunks|
        invariant created == i && |driver.log| == |old(driver.log)| + i
        invariant HasCreated(old(driver), driver, chunks, handles[..], i)
        invariant NoFaultsIn(|old(driver.log)|, |old(driver.log)| + i)
        invariant errorCode == (if i == 0 then old(errorCode) else NO_ERROR) && (i > 0 ==> old(errorCode) == NO_ERROR)
      {
        ghost var before, were := driver, handles[..];
        var created' := CreateChunk(chunks, handles, i);
        status := created';
        if errorCode != NO_ERROR {
          HasCreatedStill(old(driver), before, chunks, were, handles[..], i);
          releases := UndoCreates(chunks, handles[..], i, old(driver), before, status);
          return false, i, status, releases;
        }
        OneMoreCall(|old(driver.log)|, |before.log|);
        CreateOneMore(old(driver), before, driver, chunks, were, handles[..], i);
        created := i + 1;
      }
      ok := true;
    }

    /** cuMemMap with its check. */
    method MapChunk(addr: int, size: int, handle: Handle) returns (ghost status: Status)
      requires errorCode == NO_ERROR
      modifies this`driver, this`errorCode
      ensures errorCode == status
      ensures status == old(StatusOf(driver.CanMap(addr, size, handle)))
      ensures status == NO_ERROR ==>
                && old(driver).CanMap(addr, size, handle)
                && driver == old(driver).Logged(Map(addr, size, handle), NO_ERROR).(
                               mapped := old(driver.mapped)[addr := Mapping(size, handle, false)])
      ensures status != NO_ERROR ==> driver == old(driver).Logged(Map(addr, size, handle), status)
    {
      var result := StatusOf(driver.CanMap(addr, size, handle));
      driver := Log(driver, Map(addr, size, handle), result);
      if result == NO_ERROR {
        driver := WithMapping(driver, addr, size, handle);
      }
      Check(result);
      status := result;
    }

    /** Unmaps the first n chunks and releases all handles, ignoring the statuses. */
    method Undo(base: int, chunks: seq<int>, handles: seq<Handle>, n: nat)
      returns (ghost unmaps: seq<Status>, ghost releases: seq<Status>)
      requires n <= |chunks| == |handles|
      modifies this`driver
      ensures |unmaps| == n && |releases| == |chunks|
      ensures driver == old(driver).(
                          log := old(driver.log) + UnmapLog(base, chunks, unmaps) + ReleaseLog(handles, releases),
                          mapped := old(driver.mapped) - Unmapped(base, chunks, unmaps),
                          live := old(driver.live) - Released(handles, releases))
      ensures AreMapped(old(driver.mapped), base, chunks, n) ==> FromOracle(unmaps, |old(driver.log)|)
      ensures AreLive(old(driver.live), handles) ==> FromOracle(releases, |old(driver.log)| + n)
    {
      assert handles[..|chunks|] == handles;
      var ignored;
      ignored, unmaps := UnmapChunks(base, chunks, n, NO_ERROR);
      ignored, releases := ReleaseHandles(handles, |chunks|, NO_ERROR);
    }

    /** The map of one chunk stopped the loop that maps the chunks on top of d. */
    ghost predicate StopsByOracle(
      d: Driver, base: int, chunks: seq<int>, handles: seq<Handle>,
      stopped: nat, status: Status, unmaps: seq<Status>, releases: seq<Status>)
      requires stopped < |chunks| == |handles|
    {
      var t := |d.log|;
      && NoFaultsIn(t, t + stopped)
      && FromOracle(unmaps, t + stopped + 1) && FromOracle(releases, t + 2 * stopped + 1)
      && status == if WithTile(d, base, chunks, handles, stopped)
                        .CanMap(Start(base, chunks, stopped), chunks[stopped], handles[stopped])
                   then Fault(t + stopped) else ERROR_INVALID
    }

    /** The roll-back after the map of chunk i. */
    method UndoMaps(
      base: int, chunks: seq<int>, handles: seq<Handle>, i: nat,
      ghost d: ValidDriver, ghost before: ValidDriver, ghost status: Status)
      returns (ghost unmaps: seq<Status>, ghost releases: seq<Status>)
      requires i < |chunks| == |handles| && HasMapped(d, before, base, chunks, handles, i)
      requires Positive(chunks) && AreLive(d.live, handles) && NoFaultsIn(|d.log|, |d.log| + i)
      requires
        var addr := Start(base, chunks, i);
        && status == (if before.CanMap(addr, chunks[i], handles[i]) then Fault(|before.log|) else ERROR_INVALID)
        && driver == before.Logged(Map(addr, chunks[i], handles[i]), status)
      modifies this`driver
      ensures |unmaps| == i && |releases| == |chunks|
      ensures HasUndone(d, driver, base, chunks, handles, status, unmaps, releases)
      ensures StopsByOracle(d, base, chunks, handles, i, status, unmaps, releases)
    {
      ghost var addr := Start(base, chunks, i);
      TileIsMapped(d.mapped, base, chunks, handles, i);
      CanMapIgnoresLog(before, WithTile(d, base, chunks, handles, i), addr, chunks[i], handles[i]);
      unmaps, releases := Undo(base, chunks, handles, i);
      UndoneLog(before.log, Entry(Map(addr, chunks[i], handles[i]), status),
                UnmapLog(base, chunks, unmaps), ReleaseLog(handles, releases));
    }

    /** Maps every chunk.  When the error code is set, the chunks mapped so far are unmapped
        and all handles are released. */
    method MapChunks(base: int, chunks: seq<int>, handles: seq<Handle>)
      returns (ok: bool, ghost stopped: nat, ghost status: Status, ghost unmaps: seq<Status>, ghost releases: seq<Status>)
      requires |handles| == |chunks| && (chunks != [] ==> errorCode == NO_ERROR)
      requires Positive(chunks) && AreLive(driver.live, handles)
      modifies this`driver, this`errorCode
      ensures ok ==>
                && errorCode == old(errorCode) && NoFaultsIn(|old(driver.log)|, |old(driver.log)| + |chunks|)
                && HasMapped(old(driver), driver, base, chunks, handles, |chunks|)
      ensures !ok ==>
                && errorCode == status != NO_ERROR && |unmaps| == stopped < |chunks| == |releases|
                && HasUndone(old(driver), driver, base, chunks, handles, status, unmaps, releases)
                && StopsByOracle(old(driver), base, chunks, handles, stopped, status, unmaps, releases)
    {
      stopped, status, unmaps, releases := 0, NO_ERROR, [], [];
      var addr := base;
      for i := 0 to |chunks|
        invariant addr == Start(base, chunks, i) && errorCode == old(errorCode)
        invariant HasMapped(old(driver), driver, base, chunks, handles, i)
        invariant NoFaultsIn(|old(driver.log)|, |old(driver.log)| + i)
      {
        ghost var before := driver;
        status := MapChunk(addr, chunks[i], handles[i]);
        if errorCode != NO_ERROR {
          unmaps, releases := UndoMaps(base, chunks, handles, i, old(driver), before, status);
          return false, i, status, unmaps, releases;
        }
        MapOneMore(old(driver), before, driver, base, chunks, handles, i);
        addr := addr + chunks[i];
      }
      ok, stopped := true, |chunks|;
    }

    /** The calls of ensure_context, as one. */
    method EnsureContext()
      modifies this`driver, this`errorCode
      ensures driver == old(driver).Logged(GetContext, Fault(|old(driver.log)|))
      ensures errorCode == old(ErrorAfterContext())
    {
      var status := StatusOf(true);
      driver := Log(driver, GetContext, status);
      Check(status);
    }

    /** The error code with which the loops start. */
    function ErrorAfterContext(): Status
      reads this`driver, this`errorCode
    {
      if Fault(|driver.log|) != NO_ERROR then Fault(|driver.log|) else errorCode
    }

    method CreateAndMap(size: int, base: int, chunks: seq<int>, handles: array<Handle>) returns (ghost outcome: Outcome)
      requires handles.Length == |chunks|
      modifies this`driver, this`errorCode, handles
      ensures outcome.Fits(chunks) && (outcome.Mapped? <==> errorCode == NO_ERROR)
      ensures Runs(old(driver), old(ErrorAfterContext()), driver, size, base, chunks, handles[..], outcome)
      ensures CanHold(old(driver), base, chunks) && old(errorCode) == NO_ERROR ==>
                UndoneByOracle(old(driver), driver, |chunks|, Untouched(old(driver), base, size))
    {
      EnsureContext();
      ghost var before := driver;
      outcome := MapCreated(size, base, chunks, handles);
      RunsAfterContext(
        old(driver), before, old(ErrorAfterContext()), driver, size, base, chunks, handles[..], outcome);
      if CanHold(old(driver), base, chunks) && old(errorCode) == NO_ERROR {
        OracleDecides(old(driver), driver, size, base, chunks, handles[..], outcome);
      }
    }

    /** create_and_map after ensure_context. */
    method MapCreated(size: int, base: int, chunks: seq<int>, handles: array<Handle>) returns (ghost outcome: Outcome)
      requires handles.Length == |chunks|
      modifies this`driver, this`errorCode, handles
      ensures outcome.Fits(chunks) && (outcome.Mapped? <==> errorCode == NO_ERROR)
      ensures Performs(old(driver), old(errorCode), driver, size, base, chunks, handles[..], outcome)
    {
      ghost var before, entry := driver, errorCode;
      var ok; ghost var stopped, status, releases;
      ok, stopped, status, releases := CreateChunks(chunks, handles);
      if ok {
        outcome := MapAndAllow(size, base, chunks, handles[..], before, entry);
      } else {
        outcome := CreateStopped(stopped, status, releases);
        StoppedAtCreate(before, entry, driver, size, base, chunks, handles[..], stopped, status, releases);
        Regroup(before.log, CreateLog(chunks, stopped), StoppedCreateLog(chunks, handles[..], stopped, status, releases));
      }
    }

    /** The changes, the calls and the statuses of create_and_map after ensure_context. */
    ghost predicate Performs(
      d: Driver, entry: Status, d': Driver, size: int, base: int, chunks: seq<int>, handles: seq<Handle>, outcome: Outcome)
      requires |handles| == |chunks| && outcome.Fits(chunks)
    {
      && CreatesAndMaps(d, entry, d', size, base, chunks, handles, outcome)
      && d'.log == d.log + Calls(size, base, chunks, handles, outcome)
      && FollowsOracle(outcome, chunks, CanHold(d, base, chunks), |d.log|)
    }

    /** The changes, the calls and the statuses of create_and_map. */
    ghost predicate Runs(
      d: Driver, entry: Status, d': Driver, size: int, base: int, chunks: seq<int>, handles: seq<Handle>, outcome: Outcome)
      requires |handles| == |chunks| && outcome.Fits(chunks)
    {
      && CreatesAndMaps(d, entry, d', size, base, chunks, handles, outcome)
      && d'.log == d.log + [Entry(GetContext, Fault(|d.log|))] + Calls(size, base, chunks, handles, outcome)
      && FollowsOracle(outcome, chunks, CanHold(d, base, chunks), |d.log| + 1)
    }

    lemma RunsAfterContext(
      d: Driver, d1: Driver, entry: Status, d': Driver, size: int, base: int, chunks: seq<int>, handles: seq<Handle>,
      outcome: Outcome)
      requires |handles| == |chunks| && outcome.Fits(chunks) && d1 == d.Logged(GetContext, Fault(|d.log|))
      requires Performs(d1, entry, d', size, base, chunks, handles, outcome)
      ensures Runs(d, entry, d', size, base, chunks, handles, outcome)
    {
      ContextDoesNotMatter(d, d1, entry, d', size, base, chunks, handles, outcome);
      CanHoldIgnoresLog(d, d1, base, chunks);
    }

    /** The second loop of create_and_map, and setting the access. */
    method MapAndAllow(
      size: int, base: int, chunks: seq<int>, handles: seq<Handle>, ghost before: ValidDriver, ghost entry: Status)
      returns (ghost outcome: Outcome)
      requires |handles| == |chunks| && errorCode == entry && (chunks != [] ==> entry == NO_ERROR)
      requires HasCreated(before, driver, chunks, handles, |chunks|)
      requires NoFaultsIn(|before.log|, |before.log| + |chunks|)
      modifies this`driver, this`errorCode
      ensures outcome.Fits(chunks) && (outcome.Mapped? <==> errorCode == NO_ERROR)
      ensures Performs(before, entry, driver, size, base, chunks, handles, outcome)
    {
      ghost var created := driver;
      CreatedAreLive(before, driver, driver, chunks, handles, |chunks|);
      assert chunks[..|chunks|] == chunks && handles[..|chunks|] == handles;
      var ok; ghost var stopped, status, unmaps, releases;
      ok, stopped, status, unmaps, releases := MapChunks(base, chunks, handles);
      if ok {
        AllAdded(before, created, driver, base, chunks, handles);
        Regroup(before.log, CreateLog(chunks, |chunks|), MapLog(base, chunks, handles, |chunks|));
        NoFaultsInBoth(|before.log|, |created.log|, |created.log| + |chunks|);
        outcome := AllowAccess(size, base, chunks, handles, before, entry);
      } else {
        outcome := MapStopped(stopped, status, unmaps, releases);
        MapStops(before, created, driver, size, base, chunks, handles, stopped, status, unmaps, releases);
      }
    }

    lemma MapStops(
      d: ValidDriver, d1: ValidDriver, d': Driver, size: int, base: int, chunks: seq<int>, handles: seq<Handle>,
      stopped: nat, status: Status, unmaps: seq<Status>, releases: seq<Status>)
      requires |unmaps| == stopped < |chunks| == |handles| == |releases| && status != NO_ERROR
      requires HasCreated(d, d1, chunks, handles, |chunks|) && HasUndone(d1, d', base, chunks, handles, status, unmaps, releases)
      requires NoFaultsIn(|d.log|, |d.log| + |chunks|)
      requires StopsByOracle(d1, base, chunks, handles, stopped, status, unmaps, releases)
      ensures Performs(d, NO_ERROR, d', size, base, chunks, handles, MapStopped(stopped, status, unmaps, releases))
    {
      NumberedAreNew(d, handles);
      StoppedAtMap(d, d1, d', size, base, chunks, handles, stopped, status, unmaps, releases);
      StoppedAtMapLog(d, d1, d', size, base, chunks, handles, stopped, status, unmaps, releases);
      MapStopsByOracle(d, d1, base, chunks, handles, stopped, status, unmaps, releases);
    }

    lemma MapStopsByOracle(
      d: ValidDriver, d1: ValidDriver, base: int, chunks: seq<int>, handles: seq<Handle>,
      stopped: nat, status: Status, unmaps: seq<Status>, releases: seq<Status>)
      requires |unmaps| == stopped < |chunks| == |handles| == |releases|
      requires HasCreated(d, d1, chunks, handles, |chunks|) && NoFaultsIn(|d.log|, |d.log| + |chunks|)
      requires StopsByOracle(d1, base, chunks, handles, stopped, status, unmaps, releases)
      ensures FollowsOracle(
                MapStopped(stopped, status, unmaps, releases), chunks, CanHold(d, base, chunks), |d.log|)
    {
      NoFaultsInBoth(|d.log|, |d1.log|, |d1.log| + stopped);
      if CanHold(d, base, chunks) {
        StoppedMapWasLegal(d, d1, base, chunks, handles, stopped);
      }
    }

    /** Setting the access, when all chunks are mapped. */
    method AllowAccess(
      size: int, base: int, chunks: seq<int>, handles: seq<Handle>, ghost before: ValidDriver, ghost entry: Status)
      returns (ghost outcome: Outcome)
      requires |handles| == |chunks| && errorCode == entry && (chunks != [] ==> entry == NO_ERROR)
      requires Positive(chunks) && Added(before, driver, base, chunks, handles)
      requires driver.log == before.log + (CreateLog(chunks, |chunks|) + MapLog(base, chunks, handles, |chunks|))
      requires NoFaultsIn(|before.log|, |driver.log|)
      modifies this`driver, this`errorCode
      ensures outcome.Fits(chunks) && (outcome.Mapped? <==> errorCode == NO_ERROR)
      ensures Performs(before, entry, driver, size, base, chunks, handles, outcome)
    {
      ghost var added := driver;
      var result := SetAccessOf(base, size);
      Check(result);
      outcome := if errorCode == NO_ERROR then Mapped else AccessFailed(result);
      Regroup(before.log, CreateLog(chunks, |chunks|) + MapLog(base, chunks, handles, |chunks|),
              [Entry(SetAccess(base, size), result)]);
      AccessIsSet(before, added, driver, entry, result, size, base, chunks, handles, outcome);
    }

    /** cuMemSetAccess */
    method SetAccessOf(addr: int, size: int) returns (status: Status)
      modifies this`driver
      ensures status == old(Fault(|driver.log|))
      ensures driver == old(driver).Logged(SetAccess(addr, size), status).(
                          mapped := if status == NO_ERROR then Allow(old(driver.mapped), addr, size) else old(driver.mapped))
    {
      status := StatusOf(true);
      driver := Log(driver, SetAccess(addr, size), status);
      if status == NO_ERROR {
        driver := WithAccess(driver, addr, size);
      }
    }

    method FreeAddress(addr: int, size: int) returns (status: Status)
      modifies this`driver
      ensures status == old(StatusOf(driver.CanFree(addr, size)))
      ensures driver == old(driver).Logged(AddressFree(addr, size), status).(
                          reserved := if status == NO_ERROR then old(driver.reserved) - {addr} else old(driver.reserved))
    {
      status := StatusOf(driver.CanFree(addr, size));
      driver := Log(driver, AddressFree(addr, size), status);
      if status == NO_ERROR {
        driver := WithoutReservation(driver, addr, size);
      }
    }

    /** The driver may reserve somewhere else than asked for. */
    method ReserveAddress(size: int, hint: int) returns (status: Status, addr: int)
      requires size >= 0
      modifies this`driver
      ensures addr == Place(|old(driver.log)|, hint)
      ensures status == old(StatusOf(driver.IsUnreserved(Place(|driver.log|, hint), size)))
      ensures driver == old(driver).Logged(AddressReserve(size, hint), status).(
                          reserved := if status == NO_ERROR then old(driver.reserved)[addr := size] else old(driver.reserved))
      ensures status == NO_ERROR ==> driver.CanFree(addr, size)
    {
      addr := Place(|driver.log|, hint);
      status := StatusOf(driver.IsUnreserved(addr, size));
      driver := Log(driver, AddressReserve(size, hint), status);
      if status == NO_ERROR {
        driver := WithReservation(driver, addr, size);
      }
    }

    /** Frees the address range and reserves it again, so that the driver gives the physical
        memory back.  The range is lost when it is freed and cannot be reserved at the same
        place again. */
    method CycleAddress(size: int, base: int) returns (status: Status, moved: bool, ghost cycle: AddressCycle)
      modifies this`driver
      ensures !cycle.NotTried?
      ensures driver == old(driver).(log := old(driver.log) + cycle.Log(base, size),
                                     reserved := cycle.Reserved(old(driver.reserved), base, size))
      ensures moved == cycle.Moved? && (status == NO_ERROR <==> cycle.Cycled? || cycle.Moved?)
      ensures cycle.FreeFailed? || cycle.ReserveFailed? ==> status == cycle.status
      ensures
        var t := |old(driver.log)|;
        && CyclesBy(cycle, old(driver), t, size, base)
        && (base in driver.reserved <==>
              base in old(driver.reserved) &&
              (old(driver).CanFree(base, size) && Fault(t) == NO_ERROR ==> Fault(t + 1) == NO_ERROR && Place(t + 1, base) == base))
    {
      moved := false;
      ghost var before := driver;
      status := FreeAddress(base, size);
      cycle := FreeFailed(status);
      if status == NO_ERROR {
        FreeingKeepsValid(before, base, size);
        var addr;
        status, addr := ReserveAddress(size, base);
        cycle := if status == NO_ERROR then Cycled else ReserveFailed(status);
        if status == NO_ERROR && addr != base {
          var freed := FreeAddress(addr, size);
          moved, cycle := true, Moved(addr, freed);
          assert (before.reserved - {base})[addr := size] - {addr} == before.reserved - {base};
        } else if status == NO_ERROR {
          assert (before.reserved - {base})[base := size] == before.reserved;
        }
      }
    }

    /** Unmaps and releases every chunk, whatever the statuses, and reports the first error.
        Only when all calls succeeded is the address range cycled. */
    method UnmapAndRelease(size: int, base: int, chunks: seq<int>, handles: seq<Handle>)
      returns (ghost unmaps: seq<Status>, ghost releases: seq<Status>, ghost cycle: AddressCycle)
      requires |handles| == |chunks|
      modifies this`driver, this`errorCode
      ensures UnmapsAndReleases(
                old(driver), Fault(|old(driver.log)|), driver, size, base, chunks, handles, unmaps, releases, cycle)
      ensures errorCode == NO_ERROR <==> old(ErrorAfterContext()) == NO_ERROR && cycle.Cycled?
      ensures cycle.NotTried? ==> errorCode == FirstError(NO_ERROR, unmaps + releases)
      ensures cycle.FreeFailed? || cycle.ReserveFailed? ==> errorCode == cycle.status
      ensures cycle.Moved? ==> errorCode == ERROR_INVALID
      ensures cycle.Cycled? ==> errorCode == old(ErrorAfterContext())
      ensures SleepsByOracle(old(driver), driver, size, base, chunks, handles, unmaps, releases, cycle)
    {
      EnsureContext();
      var first;
      first, unmaps, releases := UnmapAndReleaseAll(base, chunks, handles);
      ghost var unmapped := driver;
      cycle := CycleAndCheck(size, base, first);
      SleepIsDone(old(driver), unmapped, driver, size, base, chunks, handles, unmaps, releases, cycle);
    }

    lemma SleepIsDone(
      d: Driver, d1: Driver, d': Driver, size: int, base: int, chunks: seq<int>, handles: seq<Handle>,
      unmaps: seq<Status>, releases: seq<Status>, cycle: AddressCycle)
      requires |unmaps| == |releases| == |chunks| == |handles|
      requires d1 == d.(log := d.log + [Entry(GetContext, Fault(|d.log|))]
                               + UnmapLog(base, chunks, unmaps) + ReleaseLog(handles, releases),
                        mapped := d.mapped - Unmapped(base, chunks, unmaps),
                        live := d.live - Released(handles, releases))
      requires d' == d1.(log := d1.log + cycle.Log(base, size), reserved := cycle.Reserved(d1.reserved, base, size))
      requires cycle.NotTried? <==> !AllSucceeded(unmaps + releases)
      requires !cycle.NotTried? ==> CyclesBy(cycle, d1, |d1.log|, size, base)
      requires
        var t, n := |d.log| + 1, |chunks|;
        && NoBetterThanOracle(unmaps, t) && (AreMapped(d.mapped, base, chunks, n) ==> FromOracle(unmaps, t))
        && NoBetterThanOracle(releases, t + n) && (AreLive(d.live, handles) ==> FromOracle(releases, t + n))
      ensures UnmapsAndReleases(d, Fault(|d.log|), d', size, base, chunks, handles, unmaps, releases, cycle)
      ensures SleepsByOracle(d, d', size, base, chunks, handles, unmaps, releases, cycle)
    {
      CycleIgnoresLog(cycle, d1, d'.(reserved := d.reserved), |d1.log|, size, base);
    }

    /** The statuses of a sleep whose first call is the next one. */
    ghost predicate SleepsByOracle(
      d: Driver, d': Driver, size: int, base: int, chunks: seq<int>, handles: seq<Handle>,
      unmaps: seq<Status>, releases: seq<Status>, cycle: AddressCycle)
    {
      var t, n := |d.log| + 1, |chunks|;
      && NoBetterThanOracle(unmaps, t) && (AreMapped(d.mapped, base, chunks, n) ==> FromOracle(unmaps, t))
      && NoBetterThanOracle(releases, t + n) && (AreLive(d.live, handles) ==> FromOracle(releases, t + n))
      && (!cycle.NotTried? ==> CyclesBy(cycle, d'.(reserved := d.reserved), t + 2 * n, size, base))
    }

    /** For an awake allocation the oracle alone decides whether the sleep succeeds, and whether
        the range is kept. */
    lemma AwakeSleeps(
      d: ValidDriver, context: Status, d': ValidDriver, size: int, base: int, chunks: seq<int>, handles: seq<Handle>,
      unmaps: seq<Status>, releases: seq<Status>, cycle: AddressCycle)
      requires Awake(d, size, base, chunks, handles)
      requires UnmapsAndReleases(d, context, d', size, base, chunks, handles, unmaps, releases, cycle)
      requires SleepsByOracle(d, d', size, base, chunks, handles, unmaps, releases, cycle)
      ensures
        var t, n := |d.log| + 1, |chunks|;
        && (cycle.Cycled? <==> NoFaultsIn(t, t + 2 * n + 2) && Place(t + 2 * n + 1, base) == base)
        && (base in d'.reserved <==> KeepsRange(t, n, base))
    {
      var t, n := |d.log| + 1, |chunks|;
      AwakeIsMappedAndLive(d, size, base, chunks, handles);
      BothFromOracle(unmaps, releases, t);
      if AllSucceeded(unmaps + releases) {
        SleepingRange(d, d', size, base, chunks, handles, unmaps, releases);
        CycleKeepsRange(cycle, d'.(reserved := d.reserved), t + 2 * n, size, base);
      }
      CycleEnds(cycle, d.reserved, t, n, size, base);
    }

    lemma CycleEnds(cycle: AddressCycle, reserved: map<int, int>, t: nat, n: nat, size: int, base: int)
      requires base in reserved && (cycle.NotTried? <==> !NoFaultsIn(t, t + 2 * n))
      requires
        var u := t + 2 * n;
        !cycle.NotTried? ==>
          && (cycle.Cycled? <==> Fault(u) == NO_ERROR && Fault(u + 1) == NO_ERROR && Place(u + 1, base) == base)
          && (base in cycle.Reserved(reserved, base, size) <==>
                (Fault(u) == NO_ERROR ==> Fault(u + 1) == NO_ERROR && Place(u + 1, base) == base))
      ensures cycle.Cycled? <==> NoFaultsIn(t, t + 2 * n + 2) && Place(t + 2 * n + 1, base) == base
      ensures base in cycle.Reserved(reserved, base, size) <==> KeepsRange(t, n, base)
    {
      NoFaultsUpTo(t, t + 2 * n);
    }

    lemma NoFaultsUpTo(t: nat, u: nat)
      requires t <= u
      ensures NoFaultsIn(t, u + 1) <==> NoFaultsIn(t, u) && Fault(u) == NO_ERROR
      ensures NoFaultsIn(t, u + 2) <==> NoFaultsIn(t, u) && Fault(u) == NO_ERROR && Fault(u + 1) == NO_ERROR
    {
      NoFaultsInBoth(t, u, u + 1);
      NoFaultsInBoth(t, u + 1, u + 2);
    }

    lemma CycleKeepsRange(cycle: AddressCycle, d: ValidDriver, t: nat, size: int, base: int)
      requires d.CanFree(base, size) && CyclesBy(cycle, d, t, size, base)
      ensures cycle.Cycled? <==> Fault(t) == NO_ERROR && Fault(t + 1) == NO_ERROR && Place(t + 1, base) == base
      ensures base in cycle.Reserved(d.reserved, base, size) <==>
                (Fault(t) == NO_ERROR ==> Fault(t + 1) == NO_ERROR && Place(t + 1, base) == base)
    {
      FreeingKeepsValid(d, base, size);
    }

    lemma CycleIgnoresLog(cycle: AddressCycle, d: Driver, d': Driver, t: nat, size: int, base: int)
      requires d'.mapped == d.mapped && d'.reserved == d.reserved
      ensures CyclesBy(cycle, d, t, size, base) ==> CyclesBy(cycle, d', t, size, base)
    {
      CanFreeIgnoresLog(d, d', base, size);
      assert d'.(reserved := d'.reserved - {base}).IsUnreserved(Place(t + 1, base), size)
        <==> d.(reserved := d.reserved - {base}).IsUnreserved(Place(t + 1, base), size);
    }

    /** The end of unmap_and_release: cycles the range when there was no error. */
    method CycleAndCheck(size: int, base: int, first: Status) returns (ghost cycle: AddressCycle)
      modifies this`driver, this`errorCode
      ensures cycle.NotTried? <==> first != NO_ERROR
      ensures driver == old(driver).(log := old(driver.log) + cycle.Log(base, size),
                                     reserved := cycle.Reserved(old(driver.reserved), base, size))
      ensures errorCode == match cycle
                           case NotTried => first
                           case Cycled => old(errorCode)
                           case Moved(_, _) => ERROR_INVALID
                           case _ => cycle.status
      ensures
        var t := |old(driver.log)|;
        !cycle.NotTried? ==>
          && CyclesBy(cycle, old(driver), t, size, base)
          && (base in driver.reserved <==>
                base in old(driver.reserved) &&
                (old(driver).CanFree(base, size) && Fault(t) == NO_ERROR ==> Fault(t + 1) == NO_ERROR && Place(t + 1, base) == base))
    {
      cycle := NotTried;
      var status := first;
      if status == NO_ERROR {
        var moved;
        status, moved, cycle := CycleAddress(size, base);
        if status == NO_ERROR && moved {
          errorCode := ERROR_INVALID;
          return;
        }
      }
      Check(status);
    }

    /** A sleep of n chunks whose first unmap is call t keeps the range: it is not freed, or
        reserved at the same place again. */
    ghost predicate KeepsRange(t: nat, n: nat, base: int) {
      NoFaultsIn(t, t + 2 * n + 1) ==> Fault(t + 2 * n + 1) == NO_ERROR && Place(t + 2 * n + 1, base) == base
    }

    /** Both loops of unmap_and_release. */
    method UnmapAndReleaseAll(base: int, chunks: seq<int>, handles: seq<Handle>)
      returns (first: Status, ghost unmaps: seq<Status>, ghost releases: seq<Status>)
      requires |handles| == |chunks|
      modifies this`driver
      ensures |unmaps| == |releases| == |chunks|
      ensures driver == old(driver).(
                          log := old(driver.log) + UnmapLog(base, chunks, unmaps) + ReleaseLog(handles, releases),
                          mapped := old(driver.mapped) - Unmapped(base, chunks, unmaps),
                          live := old(driver.live) - Released(handles, releases))
      ensures first == FirstError(NO_ERROR, unmaps + releases) && (first == NO_ERROR <==> AllSucceeded(unmaps + releases))
      ensures
        var t, n := |old(driver.log)|, |chunks|;
        && NoBetterThanOracle(unmaps, t) && (AreMapped(old(driver.mapped), base, chunks, n) ==> FromOracle(unmaps, t))
        && NoBetterThanOracle(releases, t + n) && (AreLive(old(driver.live), handles) ==> FromOracle(releases, t + n))
    {
      assert handles[..|chunks|] == handles;
      first, unmaps := UnmapChunks(base, chunks, |chunks|, NO_ERROR);
      first, releases := ReleaseHandles(handles, |chunks|, first);
      FirstErrorSplits(NO_ERROR, unmaps, releases);
      FirstErrorIsFirst(unmaps + releases);
    }

    /** Reports the error, if any, and clears it. */
    method TakeError() returns (ok: bool)
      modifies this`errorCode
      ensures ok <==> old(errorCode) == NO_ERROR
      ensures errorCode == NO_ERROR
    {
      ok := errorCode == NO_ERROR;
      errorCode := NO_ERROR;
    }

    /** It succeeds in a free range exactly when no call has a fault. */
    method PythonCreateAndMap(size: int, base: int, chunks: seq<int>, handles: array<Handle>)
      returns (ok: bool, ghost outcome: Outcome)
      requires handles.Length == |chunks|
      modifies this`driver, this`errorCode, handles
      ensures errorCode == NO_ERROR && outcome.Fits(chunks) && (ok <==> outcome.Mapped?)
      ensures Runs(old(driver), old(ErrorAfterContext()), driver, size, base, chunks, handles[..], outcome)
      ensures
        var t, n := |old(driver.log)|, |chunks|;
        CanHold(old(driver), base, chunks) ==>
          && (ok <==> old(errorCode) == NO_ERROR && NoFaultsIn(t, t + 2 * n + 2))
          && (old(errorCode) == NO_ERROR ==> UndoneByOracle(old(driver), driver, n, Untouched(old(driver), base, size)))
    {
      outcome := CreateAndMap(size, base, chunks, handles);
      ok := TakeError();
    }

    /** It succeeds for an awake allocation exactly when no call has a fault and the driver
        reserves the range at its old place. */
    method PythonUnmapAndRelease(size: int, base: int, chunks: seq<int>, handles: seq<Handle>)
      returns (ok: bool, ghost unmaps: seq<Status>, ghost releases: seq<Status>, ghost cycle: AddressCycle)
      requires |handles| == |chunks|
      modifies this`driver, this`errorCode
      ensures errorCode == NO_ERROR
      ensures UnmapsAndReleases(
                old(driver), Fault(|old(driver.log)|), driver, size, base, chunks, handles, unmaps, releases, cycle)
      ensures ok <==> old(ErrorAfterContext()) == NO_ERROR && cycle.Cycled?
      ensures SleepsByOracle(old(driver), driver, size, base, chunks, handles, unmaps, releases, cycle)
      ensures
        var t, n := |old(driver.log)|, |chunks|;
        Awake(old(driver), size, base, chunks, handles) ==>
          && (ok <==> old(errorCode) == NO_ERROR && NoFaultsIn(t, t + 2 * n + 3) && Place(t + 2 * n + 2, base) == base)
          && (base in driver.reserved <==> KeepsRange(t + 1, n, base))
    {
      unmaps, releases, cycle := UnmapAndRelease(size, base, chunks, handles);
      ok := TakeError();
      if Awake(old(driver), size, base, chunks, handles) {
        AwakeSleeps(old(driver), Fault(|old(driver.log)|), driver, size, base, chunks, handles, unmaps, releases, cycle);
        NoFaultsInBoth(|old(driver.log)|, |old(driver.log)| + 1, |old(driver.log)| + 2 * |chunks| + 3);
      }
    }

    /** The granularity and the address range of my_malloc. */
    method ReserveRange(total: int) returns (ok: bool, base: int)
      requires total >= 0
      modifies this`driver, this`errorCode
      ensures (ok <==> errorCode == NO_ERROR) && base == Place(|old(driver.log)| + 2, 0)
      ensures
        var t := |old(driver.log)|;
        ok <==> old(errorCode) == NO_ERROR && NoFaultsIn(t, t + 3) && old(driver).IsUnreserved(base, total)
      ensures ok ==>
                driver == Reserving(old(driver), base, total) && driver.CanFree(base, total)
      ensures !ok ==> Restored(old(driver), driver)
    {
      base := Place(|driver.log| + 2, 0);
      EnsureContext();
      var status := StatusOf(true);
      driver := Log(driver, GetGranularity, status);
      Check(status);
      ok := errorCode == NO_ERROR;
      if ok {
        status, base := ReserveAddress(total, 0);
        Check(status);
        ok := errorCode == NO_ERROR;
      }
    }

    /** The chunks of my_malloc for a range just reserved: the range is held by them, or freed. */
    method MapRange(total: int, granularity: int, baseChunk: int, base: int, ghost d: Driver)
      returns (r: Malloc, chunks: seq<int>, handles: array<Handle>, ghost failure: Failure)
      requires 0 <= total < TWO_64 && 0 < granularity < TWO_64 && 0 < baseChunk < TWO_64 && total % granularity == 0
      requires driver == Reserving(d, base, total) && d.IsUnreserved(base, total)
      requires driver.CanFree(base, total) && errorCode == NO_ERROR
      modifies this`driver, this`errorCode
      ensures fresh(handles) && handles.Length == |chunks|
      ensures r.DividedByZero? <==> baseChunk + granularity - 1 >= TWO_64
      ensures r.DividedByZero? ==> driver == old(driver)
      ensures !r.DividedByZero? ==>
                var t, n := |old(driver.log)|, NumChunks(total, granularity, baseChunk);
                && r == (if NoFaultsIn(t, t + 2 * n + 2) then Pointer(base) else Null)
                && (r.Pointer? <==> errorCode == NO_ERROR)
      ensures !r.DividedByZero? ==> IsChunking(chunks, total, AlignUp(baseChunk, granularity), granularity)
      ensures r.Pointer? ==>
                && |driver.log| == |old(driver.log)| + 2 * |chunks| + 2
                && IsNewAllocation(d, driver, base, total, AlignUp(baseChunk, granularity), granularity, chunks, handles[..])
      ensures r.Null? ==>
                && FailsWith(old(driver), driver, total, base, chunks, handles[..], failure)
                && FreedByOracle(old(driver), driver, base, NumChunks(total, granularity, baseChunk))
    {
      r, chunks, handles, failure := DividedByZero, [], new Handle[0], Failure(Mapped, driver, NO_ERROR);
      ghost var reserved := driver;
      var cut := ComputeChunks(total, granularity, baseChunk);
      if cut.None? {
        return;
      }
      chunks := cut.value;
      handles := new Handle[|chunks|];
      NewRangeCanHold(driver, base, total, chunks);
      var ok;
      ok, failure := MapOrFree(total, base, chunks, handles);
      r := if ok then Pointer(base) else Null;
      if ok {
        IsAllocated(d, reserved, driver, base, total, AlignUp(baseChunk, granularity), granularity, chunks, handles[..]);
      }
    }

    /** Reserves a range for the aligned size and maps its chunks.  The Python callback, which
        notes the allocation, is outside this model.  A pointer comes back exactly when the
        error code was clear, no call has a fault and the driver finds an unreserved place.
        The first call that has a fault decides whether anything is left behind. */
    method MyMalloc(size: int, granularity: int, baseChunk: int)
      returns (r: Malloc, chunks: seq<int>, handles: array<Handle>, ghost failure: Failure)
      requires 0 <= size < TWO_64 && 0 < granularity < TWO_64 && 0 < baseChunk < TWO_64
      modifies this`driver, this`errorCode
      ensures fresh(handles) && handles.Length == |chunks|
      ensures !r.DividedByZero? ==> (r.Pointer? <==> errorCode == NO_ERROR)
      ensures
        var t, total := |old(driver.log)|, AlignUp(size, granularity);
        var n, base := NumChunks(total, granularity, baseChunk), Place(t + 2, 0);
        var reserves := old(errorCode) == NO_ERROR && NoFaultsIn(t, t + 3) && old(driver).IsUnreserved(base, total);
        var wraps := baseChunk + granularity - 1 >= TWO_64;
        && (r.DividedByZero? <==> reserves && wraps)
        && (r.Pointer? <==> reserves && !wraps && NoFaultsIn(t, t + 2 * n + 5))
        && (r.Pointer? ==> r.addr == base)
        && (!reserves ==> Restored(old(driver), driver))
        && (reserves && !wraps ==> IsChunking(chunks, total, AlignUp(baseChunk, granularity), granularity))
        && (r.DividedByZero? ==> driver == Reserving(old(driver), base, total))
        && (r.Null? && reserves ==>
              && FailsWith(Reserving(old(driver), base, total), driver, total, base, chunks, handles[..], failure)
              && RestoredByOracle(old(driver), driver, n))
      ensures r.Pointer? ==>
                && |driver.log| == |old(driver.log)| + 2 * |chunks| + 5
                && IsNewAllocation(
                     old(driver), driver, r.addr, AlignUp(size, granularity), AlignUp(baseChunk, granularity),
                     granularity, chunks, handles[..])
      ensures r.Pointer? && size > 0 ==> (size <= driver.reserved[r.addr] <==> size + granularity - 1 < TWO_64)
    {
      r, chunks, handles, failure := Null, [], new Handle[0], Failure(Mapped, driver, NO_ERROR);
      var total := AlignUp(size, granularity);
      AlignedToMultiple(size, granularity);
      var ok, base := ReserveRange(total);
      if ok {
        r, chunks, handles, failure := MapRange(total, granularity, baseChunk, base, old(driver));
        if r.Null? {
          MallocDecides(old(driver), driver, base, total, NumChunks(total, granularity, baseChunk));
        }
        if size > 0 {
          RangeIsLargeEnough(size, granularity);
        }
      }
    }

    /** Mapping the chunks of a new range failed, and then the range was freed or not. */
    ghost predicate FailsWith(
      d: Driver, d': Driver, total: int, base: int, chunks: seq<int>, handles: seq<Handle>, failure: Failure)
      requires |handles| == |chunks|
    {
      var Failure(outcome, undone, freed) := failure;
      && outcome.Fits(chunks) && !outcome.Mapped?
      && Runs(d, Fault(|d.log|), undone, total, base, chunks, handles, outcome)
      && freed == (if undone.CanFree(base, total) then Fault(|undone.log|) else ERROR_INVALID)
      && d' == undone.Logged(AddressFree(base, total), freed).(
                 reserved := if freed == NO_ERROR then undone.reserved - {base} else undone.reserved)
    }

    /** Maps the chunks of a range just reserved, or frees the range. */
    method MapOrFree(total: int, base: int, chunks: seq<int>, handles: array<Handle>)
      returns (ok: bool, ghost failure: Failure)
      requires handles.Length == |chunks| && errorCode == NO_ERROR
      modifies this`driver, this`errorCode, handles
      ensures ok <==> errorCode == NO_ERROR
      ensures ok ==>
                && Opened(old(driver), driver, total, base, chunks, handles[..])
                && AccessReaches(driver, total, base, chunks)
                && |driver.log| == |old(driver.log)| + 2 * |chunks| + 2
      ensures !ok ==> FailsWith(old(driver), driver, total, base, chunks, handles[..], failure)
      ensures
        var t, n := |old(driver.log)|, |chunks|;
        && (CanHold(old(driver), base, chunks) ==> (ok <==> NoFaultsIn(t, t + 2 * n + 2)))
        && (CanHold(old(driver), base, chunks) && old(driver).CanFree(base, total) && !ok ==>
              FreedByOracle(old(driver), driver, base, n))
    {
      ghost var outcome;
      ok, outcome := TryToMap(total, base, chunks, handles);
      failure := Failure(outcome, driver, NO_ERROR);
      if !ok {
        var released := handles[..];
        failure := FreeRange(total, base, chunks, released, old(driver), outcome);
        assert handles[..] == released;
      }
    }

    /** create_and_map with the error code clear, and the test of the error code after it. */
    method TryToMap(total: int, base: int, chunks: seq<int>, handles: array<Handle>) returns (ok: bool, ghost outcome: Outcome)
      requires handles.Length == |chunks| && errorCode == NO_ERROR
      modifies this`driver, this`errorCode, handles
      ensures ok <==> errorCode == NO_ERROR
      ensures ok ==>
                && Opened(old(driver), driver, total, base, chunks, handles[..])
                && AccessReaches(driver, total, base, chunks)
                && |driver.log| == |old(driver.log)| + 2 * |chunks| + 2
      ensures !ok ==>
                && outcome.Fits(chunks) && !outcome.Mapped?
                && Runs(old(driver), Fault(|old(driver.log)|), driver, total, base, chunks, handles[..], outcome)
      ensures CanHold(old(driver), base, chunks) ==>
                && (ok <==> NoFaultsIn(|old(driver.log)|, |old(driver.log)| + 2 * |chunks| + 2))
                && UndoneByOracle(old(driver), driver, |chunks|, Untouched(old(driver), base, total))
    {
      outcome := CreateAndMap(total, base, chunks, handles);
      ok := errorCode == NO_ERROR;
      if CanHold(old(driver), base, chunks) {
        MapsIffNoFaults(outcome, chunks, |old(driver.log)|);
      }
    }

    /** Frees a new range after create_and_map failed. */
    method FreeRange(
      total: int, base: int, chunks: seq<int>, handles: seq<Handle>, ghost d: ValidDriver, ghost outcome: Outcome)
      returns (ghost failure: Failure)
      requires |handles| == |chunks| && outcome.Fits(chunks) && !outcome.Mapped? && errorCode != NO_ERROR
      requires Runs(d, Fault(|d.log|), driver, total, base, chunks, handles, outcome)
      requires CanHold(d, base, chunks) ==> UndoneByOracle(d, driver, |chunks|, Untouched(d, base, total))
      modifies this`driver, this`errorCode
      ensures errorCode != NO_ERROR
      ensures FailsWith(d, driver, total, base, chunks, handles, failure)
      ensures CanHold(d, base, chunks) && d.CanFree(base, total) ==> FreedByOracle(d, driver, base, |chunks|)
    {
      ghost var undone := driver;
      var status := FreeAddress(base, total);
      Check(status);
      failure := Failure(outcome, undone, status);
      if CanHold(d, base, chunks) && d.CanFree(base, total) {
        FreeIsUntouched(d, base, total);
        FreeingDecides(d, undone, driver, base, total, |chunks|, status);
      }
    }

    /** Sleep, then wake up with the same chunk list.  Sleeping succeeds exactly when the error
        code is clear, no call has a fault and the driver reserves the range at its old place;
        then none of the chunks is mapped, none of the handles is live and the range stays
        reserved.  Waking up succeeds exactly when no call has a fault, and then the same
        chunks are mapped at the same addresses again and nothing else has changed. */
    method SleepAndWake(size: int, base: int, chunks: seq<int>, handles: array<Handle>)
      returns (slept: bool, ghost asleep: Driver, woke: bool)
      requires handles.Length == |chunks|
      requires Awake(driver, size, base, chunks, handles[..])
      modifies this`driver, this`errorCode, handles
      ensures
        var t, n := |old(driver.log)|, |chunks|;
        slept <==> old(errorCode) == NO_ERROR && NoFaultsIn(t, t + 2 * n + 3) && Place(t + 2 * n + 2, base) == base
      ensures slept ==> Asleep(old(driver), asleep, base, chunks, old(handles[..]))
      ensures base in asleep.reserved <==> KeepsRange(|old(driver.log)| + 1, |chunks|, base)
      ensures woke <==> slept && NoFaultsIn(|asleep.log|, |asleep.log| + 2 * |chunks| + 2)
      ensures woke ==> Reawakened(old(driver), old(handles[..]), driver, handles[..], size, base, chunks)
    {
      woke := false;
      ghost var unmaps, releases, cycle, outcome, d, h := [], [], NotTried, Mapped, driver, handles[..];
      slept, unmaps, releases, cycle := PythonUnmapAndRelease(size, base, chunks, handles[..]);
      asleep := driver;
      if slept {
        FallAsleep(d, asleep, size, base, chunks, h, unmaps, releases);
        woke, outcome := PythonCreateAndMap(size, base, chunks, handles);
        if woke {
          WakeUp(d, asleep, driver, size, base, chunks, h, handles[..]);
        }
      }
    }
  }

  /** The number of chunks of my_malloc, when the chunk size does not wrap around. */
  ghost function NumChunks(total: int, granularity: int, baseChunk: int): nat
    requires 0 <= total < TWO_64 && 0 < granularity < TWO_64 && 0 < baseChunk < TWO_64
  {
    var chunk := AlignUp(baseChunk, granularity);
    if 0 < chunk < TWO_64 && CountChunks(total, chunk) >= 0 then CountChunks(total, chunk) else 0
  }

  lemma RangeIsLargeEnough(size: int, granularity: int)
    requires 0 < size < TWO_64 && 0 < granularity < TWO_64
    ensures size <= AlignUp(size, granularity) <==> size + granularity - 1 < TWO_64
  {
    AlignUpIsZero(size, granularity);
    if size + granularity - 1 < TWO_64 {
      AlignUpIsLeast(size, granularity);
    }
  }

  /** A range that has just been reserved is free for chunks that fit into it. */
  lemma NewRangeCanHold(d: Driver, base: int, total: int, chunks: seq<int>)
    requires d.CanFree(base, total) && Positive(chunks) && Sum(chunks) <= total
    ensures CanHold(d, base, chunks)
  {
    assert Sum(chunks) <= d.reserved[base];
  }

  /** A range that was not reserved before is reserved and holds all the chunks, with access to
      every address of theirs and to nothing else that had none; when their number does not wrap around, they tile it, and otherwise nothing is mapped. */
  ghost predicate IsNewAllocation(
    d: Driver, d': Driver, base: int, total: int, chunk: int, g: int, chunks: seq<int>, handles: seq<Handle>)
    requires |handles| == |chunks| && g > 0
  {
    && d.IsUnreserved(base, total)
    && d'.reserved == d.reserved[base := total]
    && d'.live == d.live + Front(handles, |handles|)
    && d'.mapped == d.mapped + Open(Tile(base, chunks, handles, |chunks|)) && AllAccessible(d', base, chunks)
    && (total + chunk - 1 < TWO_64 ==> Tiles(chunks, total, chunk, g) && Awake(d', total, base, chunks, handles))
    && (total + chunk - 1 >= TWO_64 ==> chunks == [] && d'.mapped == d.mapped)
  }

  /** How create_and_map failed in my_malloc, the driver after it, and the status of freeing the
      range. */
  datatype Failure = Failure(outcome: Outcome, undone: Driver, freed: Status)

  datatype Malloc = Pointer(addr: int) | Null | DividedByZero

  /** The driver after the calls of my_malloc that reserve a range. */
  function Reserving(d: Driver, base: int, total: int): (r: Driver)
    ensures |r.log| == |d.log| + 3
  {
    d.Logged(GetContext, NO_ERROR).Logged(GetGranularity, NO_ERROR).Logged(AddressReserve(total, 0), NO_ERROR).(
      reserved := d.reserved[base := total])
  }

  lemma CanFreeIgnoresLog(d: Driver, d': Driver, base: int, size: int)
    requires d'.mapped == d.mapped && d'.reserved == d.reserved
    ensures d'.CanFree(base, size) <==> d.CanFree(base, size)
  {
  }

  lemma IsAllocated(
    d: Driver, d1: ValidDriver, d2: Driver, base: int, total: int, chunk: int, g: int, chunks: seq<int>,
    handles: seq<Handle>)
    requires |handles| == |chunks| && g > 0 && d.IsUnreserved(base, total)
    requires d1.live == d.live && d1.mapped == d.mapped && d1.reserved == d.reserved[base := total]
    requires Opened(d1, d2, total, base, chunks, handles) && AccessReaches(d2, total, base, chunks)
    requires d1.CanFree(base, total) && Sum(chunks) <= total
    requires if total + chunk - 1 < TWO_64 then Tiles(chunks, total, chunk, g) else chunks == []
    ensures IsNewAllocation(d, d2, base, total, chunk, g, chunks, handles)
  {
    OpensOnlyChunks(d1, total, base, chunks, handles);
    ReachingAllIsAccessible(d2, total, base, chunks);
    if total + chunk - 1 < TWO_64 {
      forall j | 0 <= j < |chunks| ensures HoldsChunk(d2, base, chunks, handles, j) {
        OpenedIsTiled(d1, d2, total, base, chunks, handles, j);
      }
    }
  }

  /** Chunk j is mapped at its address, with a live handle. */
  ghost predicate HoldsChunk(d: Driver, base: int, chunks: seq<int>, handles: seq<Handle>, j: nat)
    requires j < |chunks| == |handles|
  {
    && handles[j] in d.live
    && Start(base, chunks, j) in d.mapped
    && d.mapped[Start(base, chunks, j)].size == chunks[j] && d.mapped[Start(base, chunks, j)].handle == handles[j]
  }

  /** The allocation holds its range: reserved, and tiled by its chunks with live handles. */
  ghost predicate Awake(d: Driver, size: int, base: int, chunks: seq<int>, handles: seq<Handle>) {
    && |handles| == |chunks| && Positive(chunks) && Sum(chunks) == size && AreDistinct(handles)
    && base in d.reserved && d.reserved[base] == size
    && forall j :: 0 <= j < |chunks| ==> HoldsChunk(d, base, chunks, handles, j)
  }

  /** The addresses at which the chunks begin. */
  function Starts(base: int, chunks: seq<int>, n: nat): set<int>
    requires n <= |chunks|
  {
    if n == 0 then {} else Starts(base, chunks, n - 1) + {Start(base, chunks, n - 1)}
  }

  function Elsewhere(m: map<int, Mapping>, base: int, chunks: seq<int>): map<int, Mapping> {
    m - Starts(base, chunks, |chunks|)
  }

  /** The chunks of the allocation are gone, and the rest is as it was. */
  ghost predicate Asleep(d: Driver, d': Driver, base: int, chunks: seq<int>, handles: seq<Handle>) {
    && CanHold(d', base, chunks)
    && d'.mapped == Elsewhere(d.mapped, base, chunks)
    && d'.live == d.live - Front(handles, |handles|)
    && d'.reserved == d.reserved && d'.next == d.next
  }

  lemma FallAsleep(
    d: ValidDriver, d': Driver, size: int, base: int, chunks: seq<int>, handles: seq<Handle>,
    unmaps: seq<Status>, releases: seq<Status>)
    requires Awake(d, size, base, chunks, handles)
    requires |unmaps| == |releases| == |chunks| && AllSucceeded(unmaps + releases)
    requires d'.mapped == d.mapped - Unmapped(base, chunks, unmaps)
    requires d'.live == d.live - Released(handles, releases)
    requires d'.reserved == d.reserved && d'.next == d.next
    ensures Asleep(d, d', base, chunks, handles)
  {
    forall i | 0 <= i < |unmaps| ensures unmaps[i] == NO_ERROR && releases[i] == NO_ERROR {
      assert (unmaps + releases)[i] == unmaps[i] && (unmaps + releases)[|unmaps| + i] == releases[i];
    }
    AllReleased(handles, releases);
    UnmappedIsStarts(base, chunks, unmaps);
    RestIsOutside(d, size, base, chunks, handles);
  }

  /** The calls of a sleep are legal. */
  lemma AwakeIsMappedAndLive(d: Driver, size: int, base: int, chunks: seq<int>, handles: seq<Handle>)
    requires Awake(d, size, base, chunks, handles)
    ensures AreMapped(d.mapped, base, chunks, |chunks|) && AreLive(d.live, handles)
  {
    forall j | 0 <= j < |chunks| ensures IsMapped(d.mapped, base, chunks, j) && handles[j] in d.live {
      assert HoldsChunk(d, base, chunks, handles, j);
    }
  }

  /** With its chunks gone, the range of an awake allocation can be freed. */
  lemma SleepingRangeCanBeFreed(
    d: ValidDriver, d': ValidDriver, size: int, base: int, chunks: seq<int>, handles: seq<Handle>,
    unmaps: seq<Status>, releases: seq<Status>)
    requires Awake(d, size, base, chunks, handles)
    requires |unmaps| == |releases| == |chunks| && AllSucceeded(unmaps + releases)
    requires d'.mapped == d.mapped - Unmapped(base, chunks, unmaps)
    requires d'.live == d.live - Released(handles, releases)
    requires d'.reserved == d.reserved && d'.next == d.next
    ensures d'.CanFree(base, size)
  {
    FallAsleep(d, d', size, base, chunks, handles, unmaps, releases);
    if size <= 0 {
      forall a | a in d'.mapped ensures a + d'.mapped[a].size <= base || base + size <= a {
        assert d'.MappingIsFine(a);
        var r :| r in d'.reserved && r <= a && a + d'.mapped[a].size <= r + d'.reserved[r];
        assert d'.ReservationsAreApart(r, base) && d'.ReservationsAreApart(base, r) && d'.ReservationIsFine(base);
      }
    }
  }

  lemma SleepingRange(
    d: ValidDriver, d': Driver, size: int, base: int, chunks: seq<int>, handles: seq<Handle>,
    unmaps: seq<Status>, releases: seq<Status>)
    requires Awake(d, size, base, chunks, handles)
    requires |unmaps| == |releases| == |chunks| && AllSucceeded(unmaps + releases)
    requires d'.mapped == d.mapped - Unmapped(base, chunks, unmaps)
    requires d'.live == d.live - Released(handles, releases) && d'.next == d.next
    ensures
      var d1 := d'.(reserved := d.reserved);
      d1.Valid() && d1.CanFree(base, size)
  {
    var d1 := d'.(reserved := d.reserved);
    ShrinkingKeepsValid(d, d1);
    SleepingRangeCanBeFreed(d, d1, size, base, chunks, handles, unmaps, releases);
  }

  lemma {:induction false} UnmappedIsStarts(base: int, chunks: seq<int>, statuses: seq<Status>)
    requires |statuses| <= |chunks| && AllSucceeded(statuses)
    ensures Unmapped(base, chunks, statuses) == Starts(base, chunks, |statuses|)
  {
    if statuses != [] {
      UnmappedIsStarts(base, chunks, statuses[..|statuses| - 1]);
    }
  }

  lemma {:induction false} StartIsInStarts(base: int, chunks: seq<int>, n: nat, j: nat)
    requires j < n <= |chunks|
    ensures Start(base, chunks, j) in Starts(base, chunks, n)
  {
    if j < n - 1 {
      StartIsInStarts(base, chunks, n - 1, j);
    }
  }

  lemma {:induction false} InStarts(base: int, chunks: seq<int>, n: nat, a: int)
    requires n <= |chunks|
    ensures a in Starts(base, chunks, n) <==> exists j :: 0 <= j < n && Start(base, chunks, j) == a
  {
    if n > 0 {
      InStarts(base, chunks, n - 1, a);
      assert Start(base, chunks, n - 1) == a ==> exists j :: 0 <= j < n && Start(base, chunks, j) == a;
    }
  }

  /** Without its chunks, nothing is mapped in the range of an awake allocation. */
  lemma RestIsOutside(d: ValidDriver, size: int, base: int, chunks: seq<int>, handles: seq<Handle>)
    requires Awake(d, size, base, chunks, handles)
    ensures size > 0 ==>
              forall a :: a in Elsewhere(d.mapped, base, chunks) ==> a + d.mapped[a].size <= base || base + size <= a
  {
    forall a | size > 0 && a in Elsewhere(d.mapped, base, chunks) ensures a + d.mapped[a].size <= base || base + size <= a {
      OneIsOutside(d, size, base, chunks, handles, a);
    }
  }

  lemma OneIsOutside(d: ValidDriver, size: int, base: int, chunks: seq<int>, handles: seq<Handle>, a: int)
    requires Awake(d, size, base, chunks, handles) && size > 0 && a in Elsewhere(d.mapped, base, chunks)
    ensures a + d.mapped[a].size <= base || base + size <= a
  {
    forall j ensures !Inside(base, chunks, j, a) {
      if 0 <= j < |chunks| {
        OutsideChunk(d, size, base, chunks, handles, a, j);
      }
    }
    ChunksCoverOnce(base, chunks, a);
    if a < base {
      assert HoldsChunk(d, base, chunks, handles, 0);
      StartIsInStarts(base, chunks, |chunks|, 0);
      NotInChunk(d, a, d.mapped[a].size, Start(base, chunks, 0));
    }
  }

  lemma OutsideChunk(d: ValidDriver, size: int, base: int, chunks: seq<int>, handles: seq<Handle>, a: int, j: nat)
    requires Awake(d, size, base, chunks, handles) && a in Elsewhere(d.mapped, base, chunks)
    requires j < |chunks|
    ensures !Inside(base, chunks, j, a)
  {
    StartIsInStarts(base, chunks, |chunks|, j);
    assert HoldsChunk(d, base, chunks, handles, j);
    NotInChunk(d, Start(base, chunks, j), chunks[j], a);
  }

  /** The address of one mapping does not lie within another. */
  lemma NotInChunk(d: ValidDriver, addr: int, size: int, a: int)
    requires addr in d.mapped && d.mapped[addr].size == size && a in d.mapped && a != addr
    ensures !(addr <= a < addr + size)
  {
    assert d.MappingsAreApart(addr, a);
  }

  /** Awake again, with the same chunks at the same addresses, access to every one of them, and
      all else as it was. */
  ghost predicate Reawakened(
    d: Driver, handles: seq<Handle>, d': Driver, handles': seq<Handle>, size: int, base: int, chunks: seq<int>)
  {
    && Awake(d', size, base, chunks, handles')
    && d'.reserved == d.reserved
    && d'.mapped.Keys == d.mapped.Keys
    && (forall a :: a in d'.mapped && a in d.mapped ==> d'.mapped[a].size == d.mapped[a].size)
    && Elsewhere(d'.mapped, base, chunks) == Elsewhere(d.mapped, base, chunks)
    && d'.live - Front(handles', |handles'|) == d.live - Front(handles, |handles|)
    && AllAccessible(d', base, chunks)
  }

  lemma OpenedIsTiled(d: Driver, d': Driver, size: int, base: int, chunks: seq<int>, handles: seq<Handle>, j: nat)
    requires |handles| == |chunks| && Positive(chunks) && Opened(d, d', size, base, chunks, handles) && j < |chunks|
    ensures HoldsChunk(d', base, chunks, handles, j)
  {
    TileAt(base, chunks, handles, |chunks|, j);
    assert handles[..|chunks|][j] == handles[j];
  }

  lemma TileIsStarts(base: int, chunks: seq<int>, handles: seq<Handle>, n: nat)
    requires n <= |chunks| == |handles|
    ensures Tile(base, chunks, handles, n).Keys == Starts(base, chunks, n)
  {
    forall a ensures a in Tile(base, chunks, handles, n) <==> a in Starts(base, chunks, n) {
      KeysOfTile(base, chunks, handles, n, a);
      InStarts(base, chunks, n, a);
    }
  }

  /** Chunk by chunk, an awake allocation has the same addresses and sizes. */
  lemma SameChunks(
    d: Driver, d': Driver, size: int, base: int, chunks: seq<int>, handles: seq<Handle>, handles': seq<Handle>, a: int)
    requires Awake(d, size, base, chunks, handles) && Awake(d', size, base, chunks, handles')
    requires a in Starts(base, chunks, |chunks|)
    ensures a in d.mapped && a in d'.mapped && d'.mapped[a].size == d.mapped[a].size
  {
    InStarts(base, chunks, |chunks|, a);
    var j :| 0 <= j < |chunks| && Start(base, chunks, j) == a;
    assert HoldsChunk(d, base, chunks, handles, j) && HoldsChunk(d', base, chunks, handles', j);
  }

  lemma WakeUp(
    d: Driver, asleep: ValidDriver, d': Driver, size: int, base: int, chunks: seq<int>,
    handles: seq<Handle>, handles': seq<Handle>)
    requires Awake(d, size, base, chunks, handles) && Asleep(d, asleep, base, chunks, handles)
    requires |handles'| == |chunks| && Opened(asleep, d', size, base, chunks, handles')
    requires AccessReaches(d', size, base, chunks)
    ensures Reawakened(d, handles, d', handles', size, base, chunks)
  {
    var n := |chunks|;
    assert Awake(d', size, base, chunks, handles') by {
      forall j | 0 <= j < n ensures HoldsChunk(d', base, chunks, handles', j) {
        OpenedIsTiled(asleep, d', size, base, chunks, handles', j);
      }
    }
    ReachingAllIsAccessible(d', size, base, chunks);
    OpensOnlyChunks(asleep, size, base, chunks, handles');
    TileIsStarts(base, chunks, handles', n);
    forall a | a in Starts(base, chunks, n)
      ensures a in d.mapped && a in d'.mapped && d'.mapped[a].size == d.mapped[a].size
    {
      SameChunks(d, d', size, base, chunks, handles, handles', a);
    }
    SameRest(d, asleep, d', handles', n);
  }

  lemma SameRest(d: Driver, asleep: Driver, d': Driver, handles': seq<Handle>, n: nat)
    requires n == |handles'| && d'.live == asleep.live + Front(handles', n)
    requires forall j :: 0 <= j < n ==> handles'[j] !in asleep.live
    ensures d'.live - Front(handles', n) == asleep.live
  {
  }

  // ----- what a failure can leave behind -------------------------------------------

  /** When ensure_context has a fault, the first create may succeed all the same, and nothing
      releases its handle. */
  method FaultyContextLeaksHandle() returns (a: Allocator)
    ensures a.faults == [ERROR_INVALID]
    ensures a.driver.log == [Entry(GetContext, ERROR_INVALID), Entry(Create(1), NO_ERROR)]
    ensures a.errorCode != NO_ERROR && a.driver.live == {0} && a.driver.mapped == map[]
  {
    a := new Allocator([ERROR_INVALID], []);
    var handles := new Handle[1];
    ghost var outcome := a.CreateAndMap(1, 0, [1], handles);
    assert outcome.CreateStopped? && outcome.status == a.Fault(1);
  }

  /** An allocation of one byte in one chunk.  When setting the access has a fault, the chunk
      stays mapped, so the range cannot be freed either. */
  method FaultyAccessKeepsChunks() returns (a: Allocator, r: Malloc)
    ensures a.faults == [NO_ERROR, NO_ERROR, NO_ERROR, NO_ERROR, NO_ERROR, NO_ERROR, ERROR_INVALID]
    ensures |a.driver.log| == 8 && a.driver.log[6..] ==
              [Entry(SetAccess(0, 1), ERROR_INVALID), Entry(AddressFree(0, 1), ERROR_INVALID)]
    ensures r.Null? && a.driver.reserved == map[0 := 1] && a.driver.mapped.Keys == {0} && a.driver.live != {}
  {
    a := new Allocator([NO_ERROR, NO_ERROR, NO_ERROR, NO_ERROR, NO_ERROR, NO_ERROR, ERROR_INVALID], []);
    var chunks, handles; ghost var failure;
    r, chunks, handles, failure := a.MyMalloc(1, 1, 1);
    assert |chunks| == CountChunks(1, 1) == 1;
    ChunksOfOne(chunks);
    assert a.Fault(6) == ERROR_INVALID && a.Place(2, 0) == 0 && AlignUp(1, 1) == 1;
    assert r.Null?;
    OneChunkStays(a, Reserving(Driver([], 0, {}, map[], map[]), 0, 1), a.driver, chunks, handles[..], failure);
  }

  lemma OneChunkStays(
    a: Allocator, d: Driver, d': Driver, chunks: seq<int>, handles: seq<Handle>, failure: Failure)
    requires a.faults == [NO_ERROR, NO_ERROR, NO_ERROR, NO_ERROR, NO_ERROR, NO_ERROR, ERROR_INVALID]
    requires d == Reserving(Driver([], 0, {}, map[], map[]), 0, 1)
    requires chunks == [1] && |handles| == 1 && a.FailsWith(d, d', 1, 0, chunks, handles, failure)
    ensures |d'.log| == 8 && d'.log[6..] ==
              [Entry(SetAccess(0, 1), ERROR_INVALID), Entry(AddressFree(0, 1), ERROR_INVALID)]
    ensures d'.reserved == map[0 := 1] && d'.mapped.Keys == {0} && d'.live != {}
  {
    var undone := failure.undone;
    assert Sum(chunks[..0]) == 0 && Sum(chunks) == 1;
    NewRangeCanHold(d, 0, 1, chunks);
    assert a.Fault(3) == a.Fault(4) == a.Fault(5) == NO_ERROR && a.Fault(6) == ERROR_INVALID;
    assert failure.outcome == AccessFailed(ERROR_INVALID);
    TileOfOne(handles);
    assert handles[0] in Front(handles, 1);
    assert undone.mapped == map[0 := Mapping(1, handles[0], false)];
    assert !undone.CanFree(0, 1);
    CallsOfOne(handles);
  }

  lemma ChunksOfOne(chunks: seq<int>)
    requires |chunks| == 1 && Tiles(chunks, 1, 1, 1)
    ensures chunks == [1]
  {
  }

  lemma TileOfOne(handles: seq<Handle>)
    requires |handles| == 1
    ensures Tile(0, [1], handles, 1) == map[0 := Mapping(1, handles[0], false)]
  {
    assert Tile(0, [1], handles, 0) == map[] && Start(0, [1], 0) == 0;
  }

  lemma CallsOfOne(handles: seq<Handle>)
    requires |handles| == 1
    ensures
      var calls := Calls(1, 0, [1], handles, AccessFailed(ERROR_INVALID));
      |calls| == 3 && calls[2] == Entry(SetAccess(0, 1), ERROR_INVALID)
  {
    assert |CreateLog([1], 1) + MapLog(0, [1], handles, 1)| == 2;
  }

  /** When the range of a sleeping allocation is reserved somewhere else, it is lost. */
  method SleepLosesRange() returns (a: Allocator, r: Malloc, ok: bool)
    ensures a.faults == [] && a.places == [None, None, None, None, None, None, None, None, None, None, None, Some(5)]
    ensures r == Pointer(0) && !ok && 0 !in a.driver.reserved
  {
    a := new Allocator([], [None, None, None, None, None, None, None, None, None, None, None, Some(5)]);
    var chunks, handles; ghost var failure, unmaps, releases, cycle;
    r, chunks, handles, failure := a.MyMalloc(1, 1, 1);
    ok, unmaps, releases, cycle := a.PythonUnmapAndRelease(1, 0, chunks, handles[..]);
  }

  /** When counting the chunks wraps around, there is a pointer to a range with nothing mapped. */
  method WrappedCountMapsNothing() returns (a: Allocator, r: Malloc)
    ensures a.faults == [] && r == Pointer(0)
    ensures a.driver.reserved == map[0 := 4 * MEGABYTE] && a.driver.mapped == map[]
  {
    a := new Allocator([], []);
    CountCanWrapToZero();
    var chunks, handles; ghost var failure;
    r, chunks, handles, failure := a.MyMalloc(4 * MEGABYTE, 2 * MEGABYTE, BaseChunk(Some(0xFFF_FFFF_FFFE)));
  }
}
