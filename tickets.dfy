/**
 * `sortArrayByDate`, `sortWaitings` and `sortReservations`: the order in which
 * a branch's tickets are listed. Tickets fall into five status groups, listed
 * serving, ready, queue, done, canceled; only the queue group is re-ordered, by
 * date ascending.
 */
module Tickets {
  import opened Seqs
  import opened Sorting

  /** The status flags of a ticket; an absent optional flag is false. */
  datatype Flags = Flags(isCanceled: bool, done: bool, isReady: bool, servingNow: bool)

  /** A waiting ticket: its flags and `created_date` in milliseconds. */
  datatype Waiting = Waiting(id: int, flags: Flags, createdDate: int)

  /** A reservation: its flags, `created_date` and `from`, in milliseconds. */
  datatype Reservation = Reservation(id: int, flags: Flags, createdDate: int, from: int)

  datatype Group = Serving | Ready | Queue | Done | Canceled

  /** The five `filter` callbacks of the source, one per group. */
  predicate InGroup(f: Flags, g: Group)
  {
    match g
    case Canceled => f.isCanceled
    case Done => f.done && !f.isCanceled
    case Ready => f.isReady && !f.done && !f.isCanceled && !f.servingNow
    case Serving => f.servingNow && !f.done && !f.isCanceled
    case Queue => !f.isCanceled && !f.servingNow && !f.done && !f.isReady
  }

  /**
   * The group of a ticket by precedence: canceled over done over serving over
   * ready. The five filters of the source are exactly the five groups: each
   * ticket passes one filter and only one.
   */
  function GroupOf(f: Flags): (g: Group)
    ensures forall h :: InGroup(f, h) <==> h == g
  {
    if f.isCanceled then Canceled
    else if f.done then Done
    else if f.servingNow then Serving
    else if f.isReady then Ready
    else Queue
  }

  /** The position of a group in the output. */
  function Rank(g: Group): int
  {
    match g
    case Serving => 0
    case Ready => 1
    case Queue => 2
    case Done => 3
    case Canceled => 4
  }

  function InGroupFn<T>(flags: T -> Flags, g: Group): T -> bool
  {
    x => InGroup(flags(x), g)
  }

  function RankKey<T>(flags: T -> Flags): T -> int
  {
    x => Rank(GroupOf(flags(x)))
  }

  datatype SortOrder = Asc | Desc

  /**
   * `sortArrayByDate(arr, key, order)`: `arr.sort` with the comparator
   * `key(a) - key(b)` (ascending) or `key(b) - key(a)` (descending); the latter
   * is the ascending sort by the negated key.
   */
  function SortedByDate<T>(arr: seq<T>, key: T -> int, order: SortOrder): (r: seq<T>)
    ensures multiset(r) == multiset(arr)
    ensures forall i, j :: 0 <= i < j < |r| ==>
              if order == Asc then key(r[i]) <= key(r[j]) else key(r[i]) >= key(r[j])
  {
    if order == Asc then SortBy(arr, key)
    else
      var r := SortBy(arr, Negated(key));
      assert forall i, j :: 0 <= i < j < |r| ==> key(r[i]) >= key(r[j]) by {
        forall i, j | 0 <= i < j < |r| ensures key(r[i]) >= key(r[j]) {
          assert Negated(key)(r[i]) <= Negated(key)(r[j]);
        }
      }
      r
  }

  function Negated<T>(key: T -> int): T -> int
  {
    x => -key(x)
  }

  /**
   * `sortArrayByDate(arr, key, order)`: sorts `arr` in place and returns the
   * same array.
   */
  method SortArrayByDate<T>(arr: array<T>, key: T -> int, order: SortOrder) returns (sorted: array<T>)
    modifies arr
    ensures sorted == arr
    ensures arr[..] == SortedByDate(old(arr[..]), key, order)
  {
    var r := SortedByDate(arr[..], key, order);
    forall i | 0 <= i < arr.Length {
      arr[i] := r[i];
    }
    sorted := arr;
  }

  /** The body shared by `sortWaitings` and `sortReservations`. */
  function SortByStatus<T>(tickets: seq<T>, flags: T -> Flags, key: T -> int): (r: seq<T>)
    ensures forall i :: 0 <= i < |r| ==> r[i] in tickets
  {
    var canceled := Filter(tickets, InGroupFn(flags, Canceled));
    var dones := Filter(tickets, InGroupFn(flags, Done));
    var ready := Filter(tickets, InGroupFn(flags, Ready));
    var serving := Filter(tickets, InGroupFn(flags, Serving));
    var queue := SortedByDate(Filter(tickets, InGroupFn(flags, Queue)), key, Asc);
    var r := serving + ready + queue + dones + canceled;
    assert forall i :: 0 <= i < |r| ==> r[i] in tickets by {
      forall i | 0 <= i < |r| ensures r[i] in tickets {
        assert r[i] in multiset(serving) + multiset(ready) + multiset(queue) + multiset(dones) + multiset(canceled);
      }
    }
    r
  }

  /** Every element of a group's filter is in that group. */
  lemma GroupBlockRank<T>(tickets: seq<T>, flags: T -> Flags, g: Group, block: seq<T>)
    requires multiset(block) == multiset(Filter(tickets, InGroupFn(flags, g)))
    ensures forall i :: 0 <= i < |block| ==> RankKey(flags)(block[i]) == Rank(g)
    ensures SortedBy(block, RankKey(flags))
  {
    var f := Filter(tickets, InGroupFn(flags, g));
    forall i | 0 <= i < |block| ensures RankKey(flags)(block[i]) == Rank(g) {
      assert block[i] in multiset(f);
      assert block[i] in f;
      assert InGroupFn(flags, g)(block[i]);
    }
  }

  /** Appending a block of rank `k` to a sorted list of ranks at most `k`. */
  lemma AppendBlock<T>(a: seq<T>, b: seq<T>, rk: T -> int, k: int)
    requires SortedBy(a, rk) && forall i :: 0 <= i < |a| ==> rk(a[i]) <= k
    requires forall i :: 0 <= i < |b| ==> rk(b[i]) == k
    ensures SortedBy(a + b, rk) && forall i :: 0 <= i < |a + b| ==> rk((a + b)[i]) <= k
  {
    SortedAppend(a, b, rk);
    forall i | 0 <= i < |a + b| ensures rk((a + b)[i]) <= k {
      if i >= |a| {
        assert (a + b)[i] == b[i - |a|];
      }
    }
  }

  /** Five blocks of ranks 0 to 4, in that order, form a list sorted by rank. */
  lemma FiveBlocksSorted<T>(s0: seq<T>, s1: seq<T>, s2: seq<T>, s3: seq<T>, s4: seq<T>, rk: T -> int)
    requires forall i :: 0 <= i < |s0| ==> rk(s0[i]) == 0
    requires forall i :: 0 <= i < |s1| ==> rk(s1[i]) == 1
    requires forall i :: 0 <= i < |s2| ==> rk(s2[i]) == 2
    requires forall i :: 0 <= i < |s3| ==> rk(s3[i]) == 3
    requires forall i :: 0 <= i < |s4| ==> rk(s4[i]) == 4
    ensures SortedBy(s0 + s1 + s2 + s3 + s4, rk)
  {
    AppendBlock([], s0, rk, 0);
    assert [] + s0 == s0;
    AppendBlock(s0, s1, rk, 1);
    AppendBlock(s0 + s1, s2, rk, 2);
    AppendBlock(s0 + s1 + s2, s3, rk, 3);
    AppendBlock(s0 + s1 + s2 + s3, s4, rk, 4);
  }

  /** The groups appear in the order serving, ready, queue, done, canceled. */
  lemma SortByStatusGroupOrder<T>(tickets: seq<T>, flags: T -> Flags, key: T -> int)
    ensures SortedBy(SortByStatus(tickets, flags, key), RankKey(flags))
  {
    var canceled := Filter(tickets, InGroupFn(flags, Canceled));
    var dones := Filter(tickets, InGroupFn(flags, Done));
    var ready := Filter(tickets, InGroupFn(flags, Ready));
    var serving := Filter(tickets, InGroupFn(flags, Serving));
    var queue := SortedByDate(Filter(tickets, InGroupFn(flags, Queue)), key, Asc);
    assert SortByStatus(tickets, flags, key) == serving + ready + queue + dones + canceled;
    GroupBlockRank(tickets, flags, Serving, serving);
    GroupBlockRank(tickets, flags, Ready, ready);
    GroupBlockRank(tickets, flags, Queue, queue);
    GroupBlockRank(tickets, flags, Done, dones);
    GroupBlockRank(tickets, flags, Canceled, canceled);
    FiveBlocksSorted(serving, ready, queue, dones, canceled, RankKey(flags));
  }

  /** The output is a permutation of the input: no ticket is lost or repeated. */
  lemma SortByStatusPermutation<T>(tickets: seq<T>, flags: T -> Flags, key: T -> int)
    ensures multiset(SortByStatus(tickets, flags, key)) == multiset(tickets)
  {
    var r := SortByStatus(tickets, flags, key);
    forall x ensures multiset(r)[x] == multiset(tickets)[x] {
      FilterMultiset(tickets, InGroupFn(flags, Canceled), x);
      FilterMultiset(tickets, InGroupFn(flags, Done), x);
      FilterMultiset(tickets, InGroupFn(flags, Ready), x);
      FilterMultiset(tickets, InGroupFn(flags, Serving), x);
      FilterMultiset(tickets, InGroupFn(flags, Queue), x);
      var g := GroupOf(flags(x));
    }
  }

  /** Filtering one group's block by a group keeps all of it or nothing. */
  lemma BlockFilter<T>(tickets: seq<T>, flags: T -> Flags, h: Group, block: seq<T>, g: Group)
    requires multiset(block) == multiset(Filter(tickets, InGroupFn(flags, h)))
    ensures Filter(block, InGroupFn(flags, g)) == if h == g then block else []
  {
    var p := InGroupFn(flags, g);
    forall x | x in block ensures p(x) == (h == g) {
      assert x in multiset(block);
      assert x in Filter(tickets, InGroupFn(flags, h));
      assert InGroup(flags(x), h);
    }
    if h == g {
      FilterAll(block, p);
    } else {
      FilterNone(block, p);
    }
  }

  /**
   * Read group by group, the output holds the queue tickets sorted by date and
   * every other group's tickets in their input order.
   */
  lemma SortByStatusGroups<T>(tickets: seq<T>, flags: T -> Flags, key: T -> int, g: Group)
    ensures Filter(SortByStatus(tickets, flags, key), InGroupFn(flags, g))
         == if g == Queue then SortedByDate(Filter(tickets, InGroupFn(flags, Queue)), key, Asc)
            else Filter(tickets, InGroupFn(flags, g))
  {
    var canceled := Filter(tickets, InGroupFn(flags, Canceled));
    var dones := Filter(tickets, InGroupFn(flags, Done));
    var ready := Filter(tickets, InGroupFn(flags, Ready));
    var serving := Filter(tickets, InGroupFn(flags, Serving));
    var queue := SortedByDate(Filter(tickets, InGroupFn(flags, Queue)), key, Asc);
    var p := InGroupFn(flags, g);
    assert SortByStatus(tickets, flags, key) == serving + ready + queue + dones + canceled;
    FilterFiveBlocks(serving, ready, queue, dones, canceled, p);
    BlockFilter(tickets, flags, Serving, serving, g);
    BlockFilter(tickets, flags, Ready, ready, g);
    BlockFilter(tickets, flags, Queue, queue, g);
    BlockFilter(tickets, flags, Done, dones, g);
    BlockFilter(tickets, flags, Canceled, canceled, g);
    OnlyOneBlock(g, serving, ready, queue, dones, canceled,
                 Filter(serving, p), Filter(ready, p), Filter(queue, p), Filter(dones, p), Filter(canceled, p));
  }

  /** Filtering five concatenated blocks filters each block. */
  lemma FilterFiveBlocks<T>(serving: seq<T>, ready: seq<T>, queue: seq<T>, dones: seq<T>, canceled: seq<T>,
                            p: T -> bool)
    ensures Filter(serving + ready + queue + dones + canceled, p)
         == Filter(serving, p) + Filter(ready, p) + Filter(queue, p) + Filter(dones, p) + Filter(canceled, p)
  {
    FilterAppend(serving + ready + queue + dones, canceled, p);
    FilterAppend(serving + ready + queue, dones, p);
    FilterAppend(serving + ready, queue, p);
    FilterAppend(serving, ready, p);
  }

  /** The block of group `g` among the five. */
  function BlockOf<T>(g: Group, serving: seq<T>, ready: seq<T>, queue: seq<T>, dones: seq<T>, canceled: seq<T>): seq<T>
  {
    match g
    case Serving => serving
    case Ready => ready
    case Queue => queue
    case Done => dones
    case Canceled => canceled
  }

  /** When only the block of group `g` survives, the concatenation is that block. */
  lemma OnlyOneBlock<T>(g: Group, serving: seq<T>, ready: seq<T>, queue: seq<T>, dones: seq<T>, canceled: seq<T>,
                        fs: seq<T>, fr: seq<T>, fq: seq<T>, fd: seq<T>, fc: seq<T>)
    requires fs == (if Serving == g then serving else [])
    requires fr == (if Ready == g then ready else [])
    requires fq == (if Queue == g then queue else [])
    requires fd == (if Done == g then dones else [])
    requires fc == (if Canceled == g then canceled else [])
    ensures fs + fr + fq + fd + fc == BlockOf(g, serving, ready, queue, dones, canceled)
  {
    var e: seq<T> := [];
    match g
    case Serving => assert serving + e + e + e + e == serving;
    case Ready => assert e + ready + e + e + e == ready;
    case Queue => assert e + e + queue + e + e == queue;
    case Done => assert e + e + e + dones + e == dones;
    case Canceled => assert e + e + e + e + canceled == canceled;
  }

  function WaitingFlags(w: Waiting): Flags { w.flags }
  function WaitingCreated(w: Waiting): int { w.createdDate }
  function ReservationFlags(r: Reservation): Flags { r.flags }
  function ReservationFrom(r: Reservation): int { r.from }

  /**
   * `sortWaitings`: a permutation of the waitings, groups in the order serving,
   * ready, queue, done, canceled, the queue by `created_date` ascending.
   */
  function SortWaitings(waitings: seq<Waiting>): (r: seq<Waiting>)
    ensures multiset(r) == multiset(waitings)
    ensures SortedBy(r, RankKey(WaitingFlags))
    ensures Filter(r, InGroupFn(WaitingFlags, Queue))
         == SortedByDate(Filter(waitings, InGroupFn(WaitingFlags, Queue)), WaitingCreated, Asc)
  {
    SortByStatusPermutation(waitings, WaitingFlags, WaitingCreated);
    SortByStatusGroupOrder(waitings, WaitingFlags, WaitingCreated);
    SortByStatusGroups(waitings, WaitingFlags, WaitingCreated, Queue);
    SortByStatus(waitings, WaitingFlags, WaitingCreated)
  }

  /**
   * `sortReservations`: as `sortWaitings`, with the queue ordered by the
   * reservation's `from` ascending.
   */
  function SortReservations(reservations: seq<Reservation>): (r: seq<Reservation>)
    ensures multiset(r) == multiset(reservations)
    ensures SortedBy(r, RankKey(ReservationFlags))
    ensures Filter(r, InGroupFn(ReservationFlags, Queue))
         == SortedByDate(Filter(reservations, InGroupFn(ReservationFlags, Queue)), ReservationFrom, Asc)
  {
    SortByStatusPermutation(reservations, ReservationFlags, ReservationFrom);
    SortByStatusGroupOrder(reservations, ReservationFlags, ReservationFrom);
    SortByStatusGroups(reservations, ReservationFlags, ReservationFrom, Queue);
    SortByStatus(reservations, ReservationFlags, ReservationFrom)
  }
}
