/** `generate_mem_map`: an address range is cut into as few power-of-two regions
    as possible, each from 32K to 4G and aligned to its own size. */
module CmaRegions {

  datatype Region = Region(startAddr: nat, size: nat)

  const MIN_SHIFT := 15  // 32K
  const MAX_SHIFT := 32  // MAX_REGION_SIZE, 4G
  const MIN_SIZE: nat := 0x8000
  const ADDRESSES: nat := 0x1_0000_0000_0000_0000  // uint64_t wraps here

  function Pow2(k: nat): (r: nat)
    ensures r > 0
  {
    if k == 0 then 1 else 2 * Pow2(k - 1)
  }

  lemma ShiftValues()
    ensures Pow2(MIN_SHIFT) == MIN_SIZE && Pow2(MAX_SHIFT) == 0x1_0000_0000
  {
    assert Pow2(8) == 256;
    assert Pow2(16) == 65536;
    assert Pow2(24) == 0x100_0000;
  }

  // ---- What the loops compute ----

  /** The condition of the inner loop. */
  predicate Fits(start: nat, size: nat, region: nat)
    requires region > 0
  {
    region <= size && start % region == 0
  }

  /** The shift the inner loop stops at, having started from `k`. */
  function PickShift(start: nat, size: nat, k: nat): (r: nat)
    requires MIN_SHIFT <= k
    ensures MIN_SHIFT <= r <= k
  {
    if k == MIN_SHIFT || Fits(start, size, Pow2(k)) then k else PickShift(start, size, k - 1)
  }

  function Pick(start: nat, size: nat): nat {
    Pow2(PickShift(start, size, MAX_SHIFT))
  }

  /** The regions for a range, given slots enough. */
  function Greedy(start: nat, size: nat): (rs: seq<Region>)
    ensures rs != []
    decreases size
  {
    var region := Pick(start, size);
    [Region(start, region)] +
    if size <= region then [] else Greedy((start + region) % ADDRESSES, size - region)
  }

  /** The bytes that regions cover. */
  function Total(rs: seq<Region>): nat {
    if rs == [] then 0 else Total(rs[..|rs| - 1]) + rs[|rs| - 1].size
  }

  lemma TotalNone()
    ensures Total([]) == 0
  {
  }

  lemma TotalAppend(rs: seq<Region>, r: Region)
    ensures Total(rs + [r]) == Total(rs) + r.size
  {
    assert (rs + [r])[..|rs|] == rs;
  }

  lemma {:induction false} TotalFirst(r: Region, rs: seq<Region>)
    ensures Total([r] + rs) == r.size + Total(rs)
  {
    if rs == [] {
      assert [r] + rs == [] + [r];
      TotalAppend([], r);
    } else {
      var last := |rs| - 1;
      assert [r] + rs == ([r] + rs[..last]) + [rs[last]];
      TotalAppend([r] + rs[..last], rs[last]);
      TotalFirst(r, rs[..last]);
    }
  }

  lemma GreedyUnfold(start: nat, size: nat)
    ensures var r := Pick(start, size);
      Greedy(start, size) == [Region(start, r)] +
        if size <= r then [] else Greedy((start + r) % ADDRESSES, size - r)
  {
    hide Pick;
  }

  /** The inner loop: halve from 4G until the region fits or is 32K. */
  method ThisRegionSize(startAddr: nat, size: nat) returns (thisRegionSize: nat)
    ensures thisRegionSize == Pick(startAddr, size)
  {
    ShiftValues();
    thisRegionSize := 0x1_0000_0000;
    ghost var k := MAX_SHIFT;
    while thisRegionSize > 32 * 1024
      invariant MIN_SHIFT <= k <= MAX_SHIFT && thisRegionSize == Pow2(k)
      invariant PickShift(startAddr, size, k) == PickShift(startAddr, size, MAX_SHIFT)
      decreases k
    {
      if thisRegionSize <= size && startAddr % thisRegionSize == 0 {
        break;
      }
      PowerAbove(k);
      thisRegionSize := thisRegionSize / 2;
      k := k - 1;
    }
    PowerAbove(k);
  }

  /** `generate_mem_map`: the slots are filled with the greedy regions, as many as
      there are slots; `left` is the byte count reported as left untouched. */
  method GenerateMemMap(start: nat, size: nat, regions: array<Region>) returns (left: nat)
    requires start < ADDRESSES && size < ADDRESSES
    modifies regions
    ensures var g := Greedy(start, size); var n := if regions.Length < |g| then regions.Length else |g|;
      && regions[..n] == g[..n]
      && (forall j :: n <= j < regions.Length ==> regions[j] == old(regions[j]))
      && left == (if n < |g| && size > 0 then size - Total(g[..n]) else 0)
      && (left > 0 <==> regions.Length < |g| && size > 0)
  {
    hide Pick, Greedy, Total;
    TotalNone();
    var startAddr: nat := start;
    left := size;
    var i := 0;
    ghost var g := Greedy(start, size);
    while i < regions.Length
      invariant 0 <= i <= regions.Length && i < |g|
      invariant 0 <= left <= size && 0 <= startAddr < ADDRESSES && (size > 0 ==> left > 0)
      invariant regions[..i] == g[..i] && g[i..] == Greedy(startAddr, left)
      invariant left == size - Total(g[..i])
      invariant forall j :: i <= j < regions.Length ==> regions[j] == old(regions[j])
    {
      var thisRegionSize := ThisRegionSize(startAddr, left);
      GreedyUnfold(startAddr, left);
      regions[i] := Region(startAddr, thisRegionSize);
      assert g[i] == g[i..][0];
      assert g[..i + 1] == g[..i] + [g[i]];
      assert regions[..i + 1] == regions[..i] + [regions[i]];
      TotalAppend(g[..i], g[i]);
      startAddr := (startAddr + thisRegionSize) % ADDRESSES;
      if left <= thisRegionSize {
        left := 0;
        assert |g| == i + 1;
        return;
      }
      left := left - thisRegionSize;
      assert g[i + 1..] == g[i..][1..];
      i := i + 1;
    }
  }

  lemma PowerAbove(k: nat)
    requires k >= MIN_SHIFT
    ensures Pow2(k) > MIN_SIZE <==> k > MIN_SHIFT
  {
    ShiftValues();
    PowMonotone(MIN_SHIFT, k);
    if k > MIN_SHIFT {
      PowMonotone(MIN_SHIFT + 1, k);
    }
  }

  lemma {:induction false} PowMonotone(j: nat, k: nat)
    requires j <= k
    ensures Pow2(j) <= Pow2(k)
  {
    if j < k {
      PowMonotone(j, k - 1);
    }
  }

  // ---- Blocks ----

  /** A power of two from 32K to 4G at a multiple of itself. */
  ghost predicate Block(r: Region, k: nat) {
    15 <= k <= 32 && r.size == Pow2(k) && r.startAddr % Pow2(k) == 0
  }

  ghost predicate IsBlock(r: Region) {
    exists k :: Block(r, k)
  }

  function End(r: Region): nat {
    r.startAddr + r.size
  }

  lemma {:induction false} PowDivides(j: nat, k: nat) returns (m: nat)
    requires j <= k
    ensures Pow2(k) == m * Pow2(j) && m >= 1
  {
    m := 1;
    if j < k {
      m := PowDivides(j, k - 1);
      m := 2 * m;
    }
  }

  lemma MulMonotone(i: int, j: int, p: nat)
    ensures i <= j ==> i * p <= j * p
  {
    assert (j - i) * p == j * p - i * p;
    assert i <= j ==> (j - i) * p >= 0;
  }

  /** Multiples of `p`: one below another is at least `p` below it. */
  lemma MultipleStep(x: nat, y: nat, p: nat)
    requires p > 0 && x % p == 0 && y % p == 0 && x < y
    ensures x + p <= y
  {
    Exact(x, p);
    Exact(y, p);
    NextMultiple(x / p, y / p, p);
  }

  lemma Exact(x: nat, p: nat)
    requires p > 0 && x % p == 0
    ensures (x / p) * p == x
  {
  }

  lemma NextMultiple(i: nat, j: nat, p: nat)
    requires i * p < j * p
    ensures i * p + p <= j * p
  {
    MulMonotone(j, i, p);
    assert (i + 1) * p == i * p + p;
    MulMonotone(i + 1, j, p);
  }

  lemma ModOfProduct(a: nat, p: nat)
    requires p > 0
    ensures (a * p) % p == 0
  {
    var x := a * p;
    Division(x, p);
    NoRemainder(a, x / p, x % p, p);
  }

  lemma Division(x: nat, p: nat)
    requires p > 0
    ensures x == (x / p) * p + x % p
  {
  }

  lemma NoRemainder(a: nat, q: nat, r: nat, p: nat)
    requires a * p == q * p + r && r < p
    ensures r == 0
  {
    assert (q + 1) * p == q * p + p && (a + 1) * p == a * p + p;
    MulMonotone(q + 1, a, p);
    MulMonotone(a + 1, q, p);
  }

  lemma MultipleOf(x: nat, p: nat, m: nat)
    requires p > 0 && m * p > 0 && x % (m * p) == 0
    ensures x % p == 0
  {
    Exact(x, m * p);
    MultipleAt(x / (m * p), m, p);
  }

  lemma MultipleAt(q: nat, m: nat, p: nat)
    requires p > 0
    ensures q * (m * p) % p == 0
  {
    assert q * (m * p) == (q * m) * p;
    ModOfProduct(q * m, p);
  }

  lemma SumMultiple(x: nat, y: nat, p: nat)
    requires p > 0 && x % p == 0 && y % p == 0
    ensures (x + y) % p == 0
  {
    Exact(x, p);
    Exact(y, p);
    SumAt(x / p, y / p, p);
  }

  lemma SumAt(i: nat, j: nat, p: nat)
    requires p > 0
    ensures (i * p + j * p) % p == 0
    ensures j * p <= i * p ==> (i * p - j * p) % p == 0
  {
    assert i * p + j * p == (i + j) * p;
    ModOfProduct(i + j, p);
    if j <= i {
      assert i * p - j * p == (i - j) * p;
      ModOfProduct(i - j, p);
    } else {
      MulMonotone(i, j, p);
    }
  }

  lemma DifferenceMultiple(x: nat, y: nat, p: nat)
    requires p > 0 && x % p == 0 && y % p == 0 && y <= x
    ensures (x - y) % p == 0
  {
    Exact(x, p);
    Exact(y, p);
    SumAt(x / p, y / p, p);
  }

  /** A block that starts inside another of at least its size lies inside it. */
  lemma Nested(small: Region, j: nat, big: Region, k: nat)
    requires Block(small, j) && Block(big, k) && j <= k
    requires big.startAddr <= small.startAddr < End(big)
    ensures End(small) <= End(big)
  {
    var m := PowDivides(j, k);
    MultipleOf(big.startAddr, Pow2(j), m);
    ModOfProduct(m, Pow2(j));
    SumMultiple(big.startAddr, big.size, Pow2(j));
    MultipleStep(small.startAddr, End(big), Pow2(j));
  }

  // ---- The choice is the largest possible ----

  lemma {:induction false} PickIsLargest(start: nat, size: nat, k: nat, j: nat)
    requires MIN_SHIFT <= j <= k && Fits(start, size, Pow2(j))
    ensures j <= PickShift(start, size, k)
    decreases k
  {
    if k > j && !Fits(start, size, Pow2(k)) {
      PickIsLargest(start, size, k - 1, j);
    }
  }

  lemma LargerFitsNot(start: nat, size: nat, j: nat)
    requires MIN_SHIFT <= j <= MAX_SHIFT && Fits(start, size, Pow2(j))
    ensures Pow2(j) <= Pick(start, size)
  {
    PickIsLargest(start, size, MAX_SHIFT, j);
    PowMonotone(j, PickShift(start, size, MAX_SHIFT));
  }

  lemma PowStrict(k: nat, j: nat)
    requires k < j
    ensures Pow2(k) < Pow2(j)
  {
    PowMonotone(k + 1, j);
  }

  lemma {:induction false} PickFits(start: nat, size: nat, k: nat)
    requires MIN_SHIFT <= k && Fits(start, size, MIN_SIZE)
    ensures Fits(start, size, Pow2(PickShift(start, size, k)))
    decreases k
  {
    ShiftValues();
    if k > MIN_SHIFT && !Fits(start, size, Pow2(k)) {
      PickFits(start, size, k - 1);
    }
  }

  /** Size and start multiples of 32K, and something to cover. */
  predicate Aligned(start: nat, size: nat) {
    size > 0 && start % 0x8000 == 0 && size % 0x8000 == 0
  }

  lemma PickAligned(start: nat, size: nat)
    requires Aligned(start, size)
    ensures var r := Pick(start, size);
      IsBlock(Region(start, r)) && r <= size
      && (r < size ==> Aligned(start + r, size - r))
  {
    ShiftValues();
    PickFits(start, size, MAX_SHIFT);
    var k := PickShift(start, size, MAX_SHIFT);
    var m := PowDivides(MIN_SHIFT, k);
    ModOfProduct(m, MIN_SIZE);
    SumMultiple(start, Pow2(k), MIN_SIZE);
    DifferenceMultiple(size, Pow2(k), MIN_SIZE);
    assert Block(Region(start, Pow2(k)), k);
  }

  /** Inside the address space nothing wraps. */
  lemma GreedyStep(start: nat, size: nat)
    requires Aligned(start, size) && start + size <= ADDRESSES
    ensures var r := Pick(start, size);
      && IsBlock(Region(start, r)) && r <= size
      && Greedy(start, size) == [Region(start, r)] + (if r == size then [] else Greedy(start + r, size - r))
      && (r < size ==> Aligned(start + r, size - r))
  {
    PickAligned(start, size);
    GreedyUnfold(start, size);
    hide Aligned, Pick, Greedy, IsBlock;
    var r := Pick(start, size);
    if r < size {
      NoWrap(start + r);
    }
  }

  lemma NoWrap(x: nat)
    requires x < ADDRESSES
    ensures x % ADDRESSES == x
  {
  }

  // ---- Exact tiling ----

  /** The regions follow one another from `start` and end exactly `size` later. */
  ghost predicate Tiling(rs: seq<Region>, start: nat, size: nat)
    decreases |rs|
  {
    if rs == [] then size == 0
    else
      && rs[0].startAddr == start && IsBlock(rs[0]) && rs[0].size <= size
      && Tiling(rs[1..], start + rs[0].size, size - rs[0].size)
  }

  lemma TilingNone(start: nat)
    ensures Tiling([], start, 0)
  {
  }

  lemma TilingCons(r: Region, rest: seq<Region>, start: nat, size: nat)
    requires r.startAddr == start && IsBlock(r) && r.size <= size
    requires Tiling(rest, start + r.size, size - r.size)
    ensures Tiling([r] + rest, start, size)
  {
    hide IsBlock;
    assert ([r] + rest)[1..] == rest;
  }

  lemma {:induction false} GreedyTiles(start: nat, size: nat)
    requires Aligned(start, size) && start + size <= ADDRESSES
    ensures Tiling(Greedy(start, size), start, size)
    decreases size
  {
    hide Aligned, Pick, Greedy, IsBlock, Tiling;
    GreedyStep(start, size);
    PickPositive(start, size);
    TilingNone(start + size);
    var r := Pick(start, size);
    if r < size {
      GreedyTiles(start + r, size - r);
      TilingCons(Region(start, r), Greedy(start + r, size - r), start, size);
    } else {
      TilingCons(Region(start, r), [], start, size);
    }
  }

  lemma {:induction false} TilingAligned(rs: seq<Region>, start: nat, size: nat)
    requires Tiling(rs, start, size) && rs != []
    ensures Aligned(start, size)
    decreases |rs|
  {
    ShiftValues();
    var k :| Block(rs[0], k);
    var m := PowDivides(MIN_SHIFT, k);
    ModOfProduct(m, MIN_SIZE);
    MultipleOf(start, MIN_SIZE, m);
    if |rs| > 1 {
      TilingAligned(rs[1..], start + rs[0].size, size - rs[0].size);
      SumMultiple(size - rs[0].size, rs[0].size, MIN_SIZE);
    }
  }

  /** The map covers the range exactly, with blocks, if and only if start and size
      are multiples of 32K and the size is not zero; in particular a size of zero
      still yields a 32K region. */
  lemma TilesExactly(start: nat, size: nat)
    requires start + size <= 0x1_0000_0000_0000_0000
    ensures Tiling(Greedy(start, size), start, size) <==> Aligned(start, size)
  {
    if Aligned(start, size) {
      GreedyTiles(start, size);
    }
    if Tiling(Greedy(start, size), start, size) {
      TilingAligned(Greedy(start, size), start, size);
    }
  }

  lemma {:induction false} NothingFits(start: nat, k: nat)
    requires MIN_SHIFT <= k
    ensures PickShift(start, 0, k) == MIN_SHIFT
    decreases k
  {
    if k > MIN_SHIFT {
      NothingFits(start, k - 1);
    }
  }

  /** Nothing to map, and yet the first slot gets 32K. */
  lemma ZeroSizeMapsOne(start: nat)
    ensures Greedy(start, 0) == [Region(start, 0x8000)] && !Tiling(Greedy(start, 0), start, 0)
  {
    NothingFits(start, MAX_SHIFT);
    ShiftValues();
    GreedyUnfold(start, 0);
  }

  // ---- As few regions as possible ----

  /** Blocks, in any order and possibly overlapping, that stay inside the range
      and leave no address of it out. */
  ghost predicate Cover(rs: seq<Region>, start: nat, end: nat) {
    && (forall i :: 0 <= i < |rs| ==> Inside(rs[i], start, end))
    && (forall x: nat :: start <= x < end ==> Covered(rs, x))
  }

  ghost predicate Covered(rs: seq<Region>, x: nat) {
    exists i :: 0 <= i < |rs| && Contains(rs[i], x)
  }

  ghost predicate Inside(r: Region, start: nat, end: nat) {
    IsBlock(r) && start <= r.startAddr && End(r) <= end
  }

  ghost predicate Contains(r: Region, x: nat) {
    r.startAddr <= x < End(r)
  }

  /** No block inside the range reaches across the address `x`. */
  ghost predicate Cut(x: nat, start: nat, end: nat) {
    forall r :: Inside(r, start, end) ==> !(r.startAddr < x < End(r))
  }

  /** The greedy choice ends at such an address again, and a block from its start
      is no larger than it. */
  lemma PickCuts(s: nat, size: nat, start: nat)
    requires Aligned(s, size) && start <= s && Cut(s, start, s + size)
    ensures Cut(s + Pick(s, size), start, s + size)
    ensures forall r :: Inside(r, start, s + size) && Contains(r, s) ==> r.startAddr == s && r.size <= Pick(s, size)
  {
    PickAligned(s, size);
    var g := Region(s, Pick(s, size));
    var k :| Block(g, k);
    hide PickShift, Pick, Aligned;
    forall r | Inside(r, start, s + size) && Contains(r, s)
      ensures r.startAddr == s && r.size <= Pow2(k) {
      var j :| Block(r, j);
      assert r.startAddr == s;
      LargerFitsNot(s, size, j);
    }
    forall r | Inside(r, start, s + size)
      ensures !(r.startAddr < End(g) < End(r)) {
      var j :| Block(r, j);
      assert !(r.startAddr < s < End(r));
      if s <= r.startAddr < End(g) {
        if j <= k {
          Nested(r, j, g, k);
        } else {
          BigStartsAt(g, k, r, j);
          LargerFitsNot(s, size, j);
          PowStrict(k, j);
        }
      }
    }
  }

  /** A larger block that starts inside a smaller one starts where it starts. */
  lemma BigStartsAt(small: Region, k: nat, big: Region, j: nat)
    requires Block(small, k) && Block(big, j) && k < j
    requires small.startAddr <= big.startAddr < End(small)
    ensures big.startAddr == small.startAddr
  {
    var m := PowDivides(k, j);
    MultipleOf(big.startAddr, Pow2(k), m);
    if small.startAddr < big.startAddr {
      MultipleStep(small.startAddr, big.startAddr, Pow2(k));
    }
  }

  /** The members of a cover that start at or after `s`. */
  ghost function From(rs: seq<Region>, s: nat): set<int> {
    set i | 0 <= i < |rs| && rs[i].startAddr >= s
  }

  /** Some member of the cover starts at `s`, and the greedy block ends at a cut. */
  lemma CoverStep(rs: seq<Region>, start: nat, s: nat, size: nat) returns (i: nat)
    requires Aligned(s, size) && start <= s
    requires Cover(rs, start, s + size) && Cut(s, start, s + size)
    ensures i < |rs| && rs[i].startAddr == s
    ensures Cut(s + Pick(s, size), start, s + size)
  {
    PickCuts(s, size, start);
    assert Covered(rs, s);
    hide Aligned, Pick, Cut, IsBlock;
    i :| 0 <= i < |rs| && Contains(rs[i], s);
    assert Inside(rs[i], start, s + size);
  }

  lemma {:induction false} CoverNeeds(rs: seq<Region>, start: nat, s: nat, size: nat)
    requires Aligned(s, size) && start <= s && s + size <= ADDRESSES
    requires Cover(rs, start, s + size) && Cut(s, start, s + size)
    ensures |From(rs, s)| >= |Greedy(s, size)|
    decreases size
  {
    hide Aligned, Pick, IsBlock, Cut, Greedy, Cover, From;
    GreedyStep(s, size);
    var i := CoverStep(rs, start, s, size);
    var r := Pick(s, size);
    PickPositive(s, size);
    if r < size {
      assert s + r + (size - r) == s + size;
      CoverNeeds(rs, start, s + r, size - r);
    }
    OneMoreFrom(rs, s, s + r, i);
  }

  lemma PickPositive(s: nat, size: nat)
    ensures Pick(s, size) > 0
  {
  }

  lemma OneMoreFrom(rs: seq<Region>, s: nat, s': nat, i: nat)
    requires i < |rs| && rs[i].startAddr == s < s'
    ensures |From(rs, s)| >= 1 + |From(rs, s')|
  {
    assert From(rs, s') + {i} <= From(rs, s);
    SubsetSize(From(rs, s') + {i}, From(rs, s));
  }

  lemma SubsetSize(a: set<int>, b: set<int>)
    requires a <= b
    ensures |a| <= |b|
  {
    assert b == a + (b - a);
  }

  ghost function Upto(n: nat): (r: set<int>)
    ensures |r| == n && forall i :: i in r <==> 0 <= i < n
  {
    if n == 0 then {} else Upto(n - 1) + {n - 1}
  }

  /** No cover of the range by such blocks, whatever their order and even with
      overlaps, uses fewer regions than the map. */
  lemma GreedyIsMinimal(start: nat, size: nat, rs: seq<Region>)
    requires Aligned(start, size) && start + size <= 0x1_0000_0000_0000_0000
    requires Cover(rs, start, start + size)
    ensures |Greedy(start, size)| <= |rs|
  {
    assert Cut(start, start, start + size);
    CoverNeeds(rs, start, start, size);
    assert From(rs, start) <= Upto(|rs|);
    SubsetSize(From(rs, start), Upto(|rs|));
  }

  /** Every exact tiling is such a cover. */
  lemma {:induction false} TilingCovers(rs: seq<Region>, start: nat, size: nat)
    requires Tiling(rs, start, size)
    ensures Cover(rs, start, start + size)
    decreases |rs|
  {
    if rs != [] {
      var rest := rs[1..];
      TilingCovers(rest, End(rs[0]), size - rs[0].size);
      forall i | 0 <= i < |rs| ensures Inside(rs[i], start, start + size) {
        assert i > 0 ==> rs[i] == rest[i - 1] && Inside(rest[i - 1], End(rs[0]), start + size);
      }
      forall x: nat | start <= x < start + size ensures Covered(rs, x) {
        if x < End(rs[0]) {
          assert Contains(rs[0], x);
        } else {
          assert Covered(rest, x);
          var i :| 0 <= i < |rest| && Contains(rest[i], x);
          assert Contains(rs[i + 1], x);
        }
      }
    }
  }

  lemma {:induction false} TilingPrefix(rs: seq<Region>, start: nat, size: nat, n: nat)
    requires Tiling(rs, start, size) && n <= |rs|
    ensures var done := Total(rs[..n]);
      done <= size && Tiling(rs[..n], start, done) && (done < size <==> n < |rs|)
    decreases |rs|
  {
    if rs != [] {
      BlockNotEmpty(rs[0]);
    }
    hide IsBlock;
    if n == 0 {
      assert rs[..0] == [];
    } else {
      var r, rest := rs[0], rs[1..];
      TilingPrefix(rest, start + r.size, size - r.size, n - 1);
      assert rs[..n] == [r] + rest[..n - 1];
      TotalFirst(r, rest[..n - 1]);
      assert rs[..n][1..] == rest[..n - 1];
    }
  }

  lemma BlockNotEmpty(r: Region)
    requires IsBlock(r)
    ensures r.size > 0
  {
  }

  /** When the slots run out, what was mapped is still an exact tiling of the
      beginning of the range, and what it leaves is what is reported as left. */
  lemma PrefixTiles(start: nat, size: nat, n: nat)
    requires Aligned(start, size) && start + size <= 0x1_0000_0000_0000_0000 && n <= |Greedy(start, size)|
    ensures var g := Greedy(start, size); var done := Total(g[..n]);
      && done <= size && Tiling(g[..n], start, done)
      && (done < size <==> n < |g|)
  {
    GreedyTiles(start, size);
    TilingPrefix(Greedy(start, size), start, size, n);
  }
}
